/** The cleaning half of `load_data`: customers and products are
    deduplicated on their id (first row kept) and then rows with a null id
    are dropped; sales and receivables only lose the rows with a null cell in
    one of their key columns. */
module Cleaning {
  import opened Schema
  import opened Frames

  /** `Series.duplicated(keep="first")`: true where the value already
      occurred at an earlier position. pandas treats two NaN as equal here,
      as `Option` equality does. */
  function Duplicated<K(==)>(keys: seq<K>): (m: seq<bool>)
    ensures |m| == |keys|
  {
    seq(|keys|, i requires 0 <= i < |keys| => keys[i] in keys[..i])
  }

  /** The row predicate `df[k].notna()` for a key column. */
  function Present<T, K>(key: T -> Option<K>): T -> bool
  {
    (x: T) => key(x).Some?
  }

  /** `df.drop_duplicates(subset=[k]).dropna(subset=[k])`. */
  function DedupByKey<T, K(==)>(s: seq<T>, key: T -> Option<K>): seq<T>
  {
    var d := Where(s, NotMask(Duplicated(Column(s, key))));
    Where(d, Column(d, Present(key)))
  }

  /** `df.dropna(subset=[...])`: `complete` holds of a row with no null key cell. */
  function DropNa<T>(s: seq<T>, complete: T -> bool): seq<T>
  {
    Where(s, Column(s, complete))
  }

  /** Reference definition of what deduplication keeps: a row whose key is
      non-null and appears at no earlier position. */
  function FirstOccurrence<K(==)>(keys: seq<Option<K>>): (m: seq<bool>)
    ensures |m| == |keys|
  {
    seq(|keys|, i requires 0 <= i < |keys| => keys[i].Some? && keys[i] !in keys[..i])
  }

  function CustomerKey(c: Customer): Option<int> { c.clienteId }
  function ProductKey(p: Product): Option<int> { p.productoId }

  predicate SaleKeysPresent(v: Sale)
  {
    v.ventaId.Some? && v.fecha.Some? && v.clienteId.Some? && v.productoId.Some?
  }

  predicate ReceivableKeysPresent(c: Receivable)
  {
    c.documentoId.Some? && c.clienteId.Some? && c.fechaFactura.Some?
  }

  function CleanClientes(cs: seq<Customer>): seq<Customer> { DedupByKey(cs, CustomerKey) }
  function CleanProductos(ps: seq<Product>): seq<Product> { DedupByKey(ps, ProductKey) }
  function CleanVentas(vs: seq<Sale>): seq<Sale> { DropNa(vs, SaleKeysPresent) }
  function CleanCartera(cs: seq<Receivable>): seq<Receivable> { DropNa(cs, ReceivableKeysPresent) }

  ghost predicate KeysUnique<T, K>(s: seq<T>, key: T -> Option<K>)
  {
    (forall k :: 0 <= k < |s| ==> key(s[k]).Some?)
    && (forall a, b :: 0 <= a < b < |s| ==> key(s[a]) != key(s[b]))
  }

  lemma {:induction false} FirstIndex<K>(s: seq<K>, v: K) returns (j: nat)
    requires v in s
    ensures j < |s| && s[j] == v && v !in s[..j]
  {
    if s[0] == v {
      j := 0;
    } else {
      var j' := FirstIndex(s[1..], v);
      j := j' + 1;
      assert s[..j] == [s[0]] + s[1..][..j'];
    }
  }

  /** Deduplicating and then dropping null keys keeps exactly the first
      occurrence of every non-null key, in input order. */
  lemma DedupIsFirstOccurrence<T, K>(s: seq<T>, key: T -> Option<K>)
    ensures DedupByKey(s, key) == Where(s, FirstOccurrence(Column(s, key)))
  {
    var keys := Column(s, key);
    var m := NotMask(Duplicated(keys));
    WhereOfWhere(s, m, Present(key));
    assert AndMask(m, Column(s, Present(key))) == FirstOccurrence(keys);
  }

  /** After cleaning, ids are non-null and pairwise distinct, each kept row is
      the first occurrence of its id (in input order), and every id of the
      input survives. */
  lemma DedupByKeySpec<T, K>(s: seq<T>, key: T -> Option<K>)
    ensures DedupByKey(s, key) == Where(s, FirstOccurrence(Column(s, key)))
    ensures KeysUnique(DedupByKey(s, key), key)
    ensures forall i :: 0 <= i < |s| && key(s[i]).Some? ==>
              exists k :: 0 <= k < |DedupByKey(s, key)| && key(DedupByKey(s, key)[k]) == key(s[i])
  {
    DedupKeysUnique(s, key);
    DedupIsFirstOccurrence(s, key);
    var keys := Column(s, key);
    var m := FirstOccurrence(keys);
    var r := DedupByKey(s, key);
    WhereSelects(s, m);
    var idx := Kept(m);
    forall i | 0 <= i < |s| && key(s[i]).Some?
      ensures exists k :: 0 <= k < |r| && key(r[k]) == key(s[i])
    {
      assert keys[i] in keys[..i + 1];
      var j := FirstIndex(keys[..i + 1], keys[i]);
      assert keys[..j] == keys[..i + 1][..j];
      assert m[j];
      var k :| 0 <= k < |idx| && idx[k] == j;
      assert key(r[k]) == key(s[i]);
    }
  }

  /** After cleaning, ids are non-null and pairwise distinct. */
  lemma {:induction false} DedupKeysUnique<T, K>(s: seq<T>, key: T -> Option<K>)
    ensures KeysUnique(DedupByKey(s, key), key)
  {
    DedupIsFirstOccurrence(s, key);
    var keys := Column(s, key);
    var m := FirstOccurrence(keys);
    var r := DedupByKey(s, key);
    WhereSelects(s, m);
    var idx := Kept(m);
    forall k | 0 <= k < |r|
      ensures key(r[k]).Some?
    {
      assert idx[k] in idx && m[idx[k]];
    }
    forall a, b | 0 <= a < b < |r|
      ensures key(r[a]) != key(r[b])
    {
      assert idx[b] in idx && m[idx[b]];
      assert keys[idx[a]] == keys[..idx[b]][idx[a]];
    }
  }

  /** Cleaning customers (or products) twice is cleaning them once. */
  lemma DedupByKeyIdempotent<T, K>(s: seq<T>, key: T -> Option<K>)
    ensures DedupByKey(DedupByKey(s, key), key) == DedupByKey(s, key)
  {
    var r := DedupByKey(s, key);
    DedupByKeySpec(s, key);
    var keys := Column(r, key);
    forall i | 0 <= i < |r|
      ensures !Duplicated(keys)[i]
    {
      forall a | 0 <= a < i
        ensures keys[..i][a] != keys[i]
      {
      }
    }
    WhereAll(r, NotMask(Duplicated(keys)));
    WhereAll(r, Column(r, Present(key)));
  }

  /** `dropna` keeps exactly the rows whose key cells are all non-null, in
      input order; it removes no duplicates. */
  lemma DropNaSpec<T>(s: seq<T>, complete: T -> bool)
    ensures |DropNa(s, complete)| == |Kept(Column(s, complete))|
    ensures Increasing(Kept(Column(s, complete)))
    ensures forall k :: 0 <= k < |Kept(Column(s, complete))| ==>
              DropNa(s, complete)[k] == s[Kept(Column(s, complete))[k]]
    ensures forall i :: 0 <= i < |s| ==> (complete(s[i]) <==> i in Kept(Column(s, complete)))
    ensures forall k :: 0 <= k < |DropNa(s, complete)| ==> complete(DropNa(s, complete)[k])
  {
    WhereSelects(s, Column(s, complete));
    DropNaComplete(s, complete);
  }

  /** Every row `dropna` keeps is complete. */
  lemma {:induction false} DropNaComplete<T>(s: seq<T>, complete: T -> bool)
    ensures forall k :: 0 <= k < |DropNa(s, complete)| ==> complete(DropNa(s, complete)[k])
  {
    var m := Column(s, complete);
    WhereAt(s, m);
    KeptMember(m);
    forall k | 0 <= k < |DropNa(s, complete)|
      ensures complete(DropNa(s, complete)[k])
    {
      var i := Kept(m)[k];
      assert i in Kept(m) && m[i];
    }
  }

  /** `dropna` judges each row on its own: it distributes over stacking, so
      repeated rows are all kept. */
  lemma DropNaAppend<T>(s: seq<T>, t: seq<T>, complete: T -> bool)
    ensures DropNa(s + t, complete) == DropNa(s, complete) + DropNa(t, complete)
  {
    assert Column(s + t, complete) == Column(s, complete) + Column(t, complete);
    WhereAppend(s, Column(s, complete), t, Column(t, complete));
  }

  lemma DropNaIdempotent<T>(s: seq<T>, complete: T -> bool)
    ensures DropNa(DropNa(s, complete), complete) == DropNa(s, complete)
  {
    var r := DropNa(s, complete);
    DropNaSpec(s, complete);
    WhereAll(r, Column(r, complete));
  }

  /** The sales table keeps exactly the rows with `venta_id`, `fecha`,
      `cliente_id` and `producto_id` all present, in order, without
      deduplication; cleaning it again changes nothing. */
  lemma CleanVentasSpec(vs: seq<Sale>)
    ensures forall k :: 0 <= k < |CleanVentas(vs)| ==> SaleKeysPresent(CleanVentas(vs)[k])
    ensures forall v :: v in CleanVentas(vs) <==> v in vs && SaleKeysPresent(v)
    ensures CleanVentas(CleanVentas(vs)) == CleanVentas(vs)
    ensures forall v :: SaleKeysPresent(v) ==> CleanVentas(vs + [v, v]) == CleanVentas(vs) + [v, v]
  {
    DropNaSpec(vs, SaleKeysPresent);
    DropNaIdempotent(vs, SaleKeysPresent);
    forall v
      ensures v in CleanVentas(vs) <==> v in vs && SaleKeysPresent(v)
    {
      WhereMember(vs, Column(vs, SaleKeysPresent), v);
    }
    forall v | SaleKeysPresent(v)
      ensures CleanVentas(vs + [v, v]) == CleanVentas(vs) + [v, v]
    {
      DropNaAppend(vs, [v, v], SaleKeysPresent);
      WhereAll([v, v], Column([v, v], SaleKeysPresent));
    }
  }

  /** The same for receivables with `documento_id`, `cliente_id` and `fecha_factura`. */
  lemma CleanCarteraSpec(cs: seq<Receivable>)
    ensures forall k :: 0 <= k < |CleanCartera(cs)| ==> ReceivableKeysPresent(CleanCartera(cs)[k])
    ensures forall c :: c in CleanCartera(cs) <==> c in cs && ReceivableKeysPresent(c)
    ensures CleanCartera(CleanCartera(cs)) == CleanCartera(cs)
  {
    DropNaSpec(cs, ReceivableKeysPresent);
    DropNaIdempotent(cs, ReceivableKeysPresent);
    forall c
      ensures c in CleanCartera(cs) <==> c in cs && ReceivableKeysPresent(c)
    {
      WhereMember(cs, Column(cs, ReceivableKeysPresent), c);
    }
  }
}
