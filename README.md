# Andina commercial dashboard: the data pipeline

`appBI.py` is a Streamlit dashboard over six CSV tables: customers, products,
sales, inventory snapshots, import orders and receivables. This project
models the pandas pipeline under its charts, as Dafny functions over
sequences of records, and proves what each step guarantees.

- **Cleaning** (`Cleaning`). Customers and products are deduplicated on their
  id, keeping the first row, and then rows with a null id are dropped. Sales
  and receivables only lose the rows with a null key cell.
- **Enrichment** (`Enrichment`). The sales are left-joined to customer
  columns and then to product columns, and `anio` and `mes` are assigned.
  `LoadData` is the imperative `load_data` after the files are read.
- **Global date envelope** (`Envelope`). This is the builtin `min`/`max` over
  the per-table `Series.min()`/`max()` of four date columns.
- **Filter** (`Filtering`). An inclusive date range plus an optional equality
  on region and on segment, where "Todos" means no constraint. `ApplyFilters`
  builds the mask step by step, as `main` does.
- **Aggregates** (`Aggregates`, on top of the generic `GroupBy`):
  - the five KPI sums;
  - the monthly series;
  - sales by region × segment and by region × city;
  - the top-15 customers and products;
  - inventory value per logistics centre and import cost per origin country.

Supporting modules:

- `Schema` holds the row types.
- `Calendar` holds dates and the `"YYYY-MM"` bucket.
- `TextOrder` holds Python's string order.
- `Frames` holds boolean indexing (`df[mask]`).
- `Scenarios` works two small dashboards through the model.

Modelling conventions:

- A NaN/NaT cell is `None`.
- A `sum()` skips it (`Schema.Amount`).
- Money and quantities are integers.
- `groupby` is modelled with pandas' defaults:
  - keys come out sorted (`sort=True`), with lexicographic order on the key tuple;
  - rows with a null key cell are dropped (`dropna=True`).

## Model

| member | source | states |
|---|---|---|
| Cleaning.DedupByKeySpec | appBI.py:21-22 | Deduplication keeps exactly the first occurrence of each non-null id, in input order. The kept ids are non-null and pairwise distinct, and every id of the input survives. |
| Cleaning.DedupIsFirstOccurrence | appBI.py:21-22 | `drop_duplicates` followed by `dropna` on the id equals selecting the first occurrences of the non-null ids. |
| Cleaning.DedupKeysUnique | appBI.py:21-22 | Cleaned customer (product) ids are non-null and pairwise distinct. |
| Cleaning.DedupByKeyIdempotent | appBI.py:21-22 | Cleaning customers or products twice gives the same table as cleaning once. |
| Cleaning.DropNaSpec | appBI.py:23-24 | `dropna(subset=…)` keeps row `i` iff its key cells are all non-null. The kept rows come in increasing index order. |
| Cleaning.DropNaAppend | appBI.py:23-24 | `dropna` distributes over stacking tables, so it removes no duplicates. |
| Cleaning.DropNaIdempotent | appBI.py:23-24 | `dropna` applied twice gives the same table as applying it once. |
| Cleaning.CleanVentasSpec | appBI.py:23 | A sale survives iff `venta_id`, `fecha`, `cliente_id` and `producto_id` are all present. Cleaning is idempotent, and two copies of a complete row both survive. |
| Cleaning.CleanCarteraSpec | appBI.py:24 | A receivable survives iff `documento_id`, `cliente_id` and `fecha_factura` are present. Cleaning is idempotent. |
| Enrichment.Lookup | appBI.py:33-34 | The matched dimension row has the sale's key. No match exists iff no dimension row carries that key. |
| Enrichment.LeftMergeOfDistinct | appBI.py:31-35 | With distinct right keys, a left merge returns one row per left row, in order. Each row is paired with its match, or with no attributes when nothing matches. |
| Enrichment.EnrichedRowSpec | appBI.py:31-39 | An enriched row keeps its sale. Its customer (product) columns are absent exactly when no customer (product) has its id. It holds the year and month bucket of its date. |
| Enrichment.JoinRows | appBI.py:31-35 | After cleaning, the two joins yield exactly one row per cleaned sale, in sale order, with the looked-up customer and product columns. |
| Enrichment.AssignAnioSpec | appBI.py:38 | Assigning `anio` from `fecha.dt.year` to the rows sets each row's year. |
| Enrichment.AssignMesSpec | appBI.py:39 | Assigning `mes` from the monthly period string sets each row's bucket. |
| Enrichment.LoadData | appBI.py:20-39 | The returned tables are:<br>• the cleaned customers and products (ids non-null and unique), and the cleaned sales and receivables (not deduplicated);<br>• inventory and imports, unchanged;<br>• `ventas_ext`, one enriched row per cleaned sale, in order, whose date is present and whose `anio` and `mes` are that date's year and "YYYY-MM". |
| Calendar.DigitsRoundTrip | appBI.py:39 | A zero-padded decimal field reads back as the number it encodes. |
| Calendar.DigitsOrder | appBI.py:39 | For fixed width, string order of padded digits is numeric order, and equal strings mean equal numbers. |
| Calendar.DigitsAreDecimal | appBI.py:39 | A zero-padded field consists of decimal digits only. |
| Calendar.MonthKeyFormat | appBI.py:39 | `mes` is seven characters "YYYY-MM": four decimal digits, a dash, and two zero-padded decimal digits, which read back as the date's year and month. |
| Calendar.MonthKeyOrder | appBI.py:39 | String order on `mes` is chronological (year, month) order. Two dates share a bucket iff they share year and month. |
| Envelope.SeriesMin | appBI.py:78-83 | `Series.min()` skips NaT and returns a date of the column that is ≤ all of its dates. It is NaT exactly when the column has no date. |
| Envelope.SeriesMax | appBI.py:84-89 | The dual for `Series.max()`. |
| Envelope.PyMinSpec | appBI.py:91 | When the first item is a date, the builtin `min` is a date of the list, ≤ every date in it. |
| Envelope.PyMaxSpec | appBI.py:92 | The dual for the builtin `max`. |
| Envelope.PyMinNaTFirst | appBI.py:91-92 | A NaT first item is never replaced by the builtin `min`/`max`, because every comparison with NaT is false. |
| Envelope.MinOfMinima | appBI.py:78-91 | The min of the column minima bounds every date of every column from below and occurs in some column. |
| Envelope.MaxOfMaxima | appBI.py:84-92 | The max of the column maxima bounds every date from above and occurs in some column. |
| Envelope.EnvelopeSpec | appBI.py:78-92 | If some sale has a date, then `min_date <= d <= max_date` for every date `d` of sales `fecha`, receivables `fecha_factura`, inventory `fecha_corte` and imports `fecha_orden`, and both bounds occur in one of those columns. |
| Envelope.EnvelopeWithoutSaleDates | appBI.py:78-92 | With no sale date at all, both bounds are NaT, whatever the other tables hold. |
| Filtering.ApplyFilters | appBI.py:117-127 | The mask built with `&=` yields exactly the reference filter, and every returned row passes it. |
| Filtering.DateMaskSpec | appBI.py:117-120 | The date mask holds of a row iff its date is present and within both bounds, inclusive. |
| Filtering.NarrowSpec | appBI.py:122-126 | `mask &= col == v` keeps a row iff the mask did and the cell equals `v`. A null cell equals nothing. |
| Filtering.FilterSpec | appBI.py:117-127 | The filtered table is the order-preserving subsequence that keeps row `i` iff its date is in range and its region and segment match the selection ("Todos" matches all). |
| Filtering.FilterEmptyRange | appBI.py:117-120 | `desde > hasta` selects nothing. |
| Filtering.FilterUnknownCategory | appBI.py:122-126 | A chosen region or segment that no row carries selects nothing. This includes rows whose region is null. |
| Filtering.FilterIdentity | appBI.py:117-127 | With "Todos" twice and every date in range, the filter returns the table unchanged. |
| Filtering.InitialSelectionKeepsAll | appBI.py:91-127 | The initial sidebar state, the whole envelope and "Todos" twice, keeps every enriched sale. |
| Aggregates.KpiAppend | appBI.py:130-132 | `total_ventas`, `margen_total` and `total_unidades` of stacked tables are the sums of the parts. |
| Aggregates.SaldoPorEstadoSpec | appBI.py:135-136 | The receivables KPI of a status equals the row-by-row sum of balances of the documents in that status. |
| Aggregates.CarteraSpec | appBI.py:135-136 | `cartera_vigente` and `cartera_mora` are the balance sums over "Vigente" and "En mora" documents of the whole table. Appending a document adds its balance to its own status only. |
| Aggregates.KeyedTotal | appBI.py:212-216 | A grouped table's values add up to the column total over the rows whose key cells are all non-null. |
| Aggregates.SortByMesOfAscending | appBI.py:192 | `sort_values("mes")` leaves a table that is already strictly ascending by `mes` unchanged. |
| Aggregates.MonthlyGroupedAscending | appBI.py:188-191 | The grouped monthly table is strictly ascending by `mes`. |
| Aggregates.MonthlySeriesRows | appBI.py:188-193 | `ventas_mes` has one row per distinct `mes` of the filtered rows, each present among them, strictly ascending. |
| Aggregates.MonthlySeriesSums | appBI.py:188-193 | Each `ventas_mes` row holds the month's sums of `subtotal_cop` and `margen_total_cop`. The two columns add up to `total_ventas` and `margen_total`. |
| Aggregates.MonthlySeriesChronological | appBI.py:188-193 | On enriched rows, an earlier row of `ventas_mes` is an earlier calendar month. |
| Aggregates.PairTableSpec | appBI.py:212-229 | A table grouped on two text columns has one ascending row per non-null pair present, each with its own sum. |
| Aggregates.VentasRegionSpec | appBI.py:212-216 | Region × segment has one row per pair present, ascending, each with that pair's sales. The total equals the sales of only the rows whose region and segment are known. |
| Aggregates.VentasCiudadSpec | appBI.py:225-229 | The same for region × city. |
| Aggregates.RegionalTablesIgnoreUnknownRegion | appBI.py:212-229 | Sales with no region, such as those of unknown customers, count in neither regional table: dropping them first leaves both tables unchanged, for any mix of known and unknown regions. |
| Aggregates.RegionalTablesEmptyWithoutRegion | appBI.py:212-229 | When no sale has a region, both regional tables are empty. |
| Aggregates.TopTableSpec | appBI.py:241-264 | A top-15 table:<br>• has min(15, number of groups) rows, in non-increasing order;<br>• each row is a real group with its own sum;<br>• no group left out sums to more than a group kept. |
| Aggregates.TopClientesSpec | appBI.py:241-247 | `top_clientes` has at most 15 rows, non-increasing. Each row is a (cliente_id, nombre_cliente) group of the filtered sales with its summed subtotal, and no omitted customer outsells a kept one. |
| Aggregates.TopProductosSpec | appBI.py:258-264 | The same for (producto_id, sku, descripcion). |
| Aggregates.TextTableSpec | appBI.py:276-280 | A table grouped on one text column has one ascending row per non-null value present, each with its own sum. |
| Aggregates.InventarioPorCentroSpec | appBI.py:276-280 | Inventory per centre, over the whole inventory table: one row per known centre, ascending, with its summed value. It totals the snapshots with a centre. |
| Aggregates.ImportacionesPorPaisSpec | appBI.py:290-294 | The same for import cost per origin country over all import orders. |
| GroupBy.GroupKeysSpec | appBI.py:212-216 | The group keys are strictly ascending, and a key is a group iff some row has it. |
| GroupBy.GroupSumSpec | appBI.py:212-216 | `groupby(...).sum()`:<br>• ascending keys, each one some row's key;<br>• every keyed row covered;<br>• each value the sum over its group;<br>• the values add up to the sum over the keyed rows. |
| GroupBy.GroupSumOfWhere | appBI.py:212-216 | `groupby(...).sum()` with `dropna=True` ignores un-keyed rows: removing any of them beforehand gives the same table. |
| GroupBy.GroupSumEmpty | appBI.py:212-216 | When no row has a full key, the grouped table is empty. |
| GroupBy.SortDescSpec | appBI.py:245 | `sort_values(ascending=False)` returns a non-increasing permutation of its input. |
| GroupBy.TopNSpec | appBI.py:245-246 | `.head(n)` after the descending sort has min(n, rows) rows, non-increasing, drawn from the input. No left-out row exceeds a kept one. |
| Frames.WhereSelects | appBI.py:127 | `df[mask]` is the subsequence of rows whose mask entry holds, in order. |
| Scenarios.LoadOneSale | appBI.py:20-39 | Loading one sale, one customer and one product keeps all three and joins the sale to both. |
| Scenarios.OneSaleDashboard | appBI.py:117-193 | One January-2024 sale in the North:<br>• kept under "North", dropped under "South";<br>• reported as "2024-01" with 200 in sales and 50 in margin;<br>• KPIs 200, 50 and 2. |
| Scenarios.ReceivablesDashboard | appBI.py:135-136 | An overdue 500 and a current 300 give `cartera_mora` 500 and `cartera_vigente` 300. |

## Left out

- Reading the CSV files and `parse_dates` (`appBI.py:10-18`): file I/O. The six tables are inputs (`Schema.RawTables`).
- `@st.cache_data` (`appBI.py:8`): framework state with no effect on the values.
- All presentation:
  - page setup, CSS, tabs and columns;
  - the sidebar widgets, whose outputs are the `Filtering.Selection` input;
  - every chart;
  - the metric formatting.
- Floating-point sums: amounts and quantities are integers, and a sum is exact.
- Time of day: dates are (year, month, day) at midnight, and the day is not checked against the month's length.
- The `astype(int)` failure path (`appBI.py:27-28`): ids are integers in the model, so the cast is the identity and `LoadData` leaves the ids unchanged.
- `GroupBy.SortDesc`: pandas' default sort is not stable. The model keeps tied rows in input order, but no contract states any tie order: only the row bound, the non-increasing order and which rows are kept are claimed.
- The records hold a fixed set of CSV columns (`Schema`), and any other column of the files is not modelled. Some of the modelled columns are never read downstream (`fecha_alta`, `categoria`, `subcategoria`, `marca`, `fecha_vencimiento`, `fecha_llegada`). The customer and product projections of the joins are carried whole. The `suffixes` renaming of the customer merge is not modelled; it would change behaviour only if the sales file had a column named like a projected customer column.
- `GroupBy.CellLess`: comparing an integer cell with a text cell raises an error in Python. The model orders integers first instead. This never arises, because each key column has one type.
- `Aggregates.KeyText`: falls back to "" for a key that is not one text cell. The monthly keys are always one text cell.
- When the sales table has no date, the builtin `min`/`max` keep the leading NaT and the envelope is NaT at both ends (`Envelope.EnvelopeWithoutSaleDates`). The dashboard passes that on to the date widget, which is not modelled.
- The sentinel "Todos" is a plain string compared with `!=`, as in the code. A region literally called "Todos" could therefore not be selected on its own.
