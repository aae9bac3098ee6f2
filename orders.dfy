/** What the two order endpoints compute, as functions of the request and
    the catalogs: `/pedido`, which trusts the client's prices, and
    `/realizarPedido`, which prices every item from the catalog and
    resolves the table first. The handlers in module App are proved
    against these. */
module Orders {
  import opened Schema
  import opened Text

  /** One element of the request's `items` list. */
  datatype OrderItem = OrderItem(
    id: Field<int>,
    tipo: Field<string>,
    cantidad: Field<int>,
    precio: Field<int>,
    nombre: Field<string>)

  /** The request's `items`: a JSON list, or some other JSON value
      (`truthy` says whether Python would treat it as true). An absent or
      null key is `NonList(false)`. */
  datatype ItemsField = ItemList(elems: seq<OrderItem>) | NonList(truthy: bool)

  datatype OrderRequest = OrderRequest(idUsuario: Field<int>, mesa: Field<int>, items: ItemsField)

  /** `mesa` is truthy: present, not null and not 0. */
  predicate MesaGiven(mesa: Field<int>)
  {
    mesa.Val? && mesa.v != 0
  }

  /** `it.get("id")`, where an absent key and null are both None. */
  function ItemId(it: OrderItem): Option<int>
  {
    if it.id.Val? then Some(it.id.v) else None
  }

  // ---------------------------------------------------------------------
  // /pedido: client-supplied prices

  /** `float(i.get("precio", 0))` and `int(i.get("cantidad", 0))` raise on
      an explicit null; an item is well typed when neither is null. */
  predicate ClientTyped(it: OrderItem)
  {
    !it.precio.Null? && !it.cantidad.Null?
  }

  /** `i.get("precio", 0)`. */
  function ClientPrice(it: OrderItem): int
  {
    if it.precio.Val? then it.precio.v else 0
  }

  /** `i.get("cantidad", 0)`: the quantity used for the total. */
  function TotalQty(it: OrderItem): int
  {
    if it.cantidad.Val? then it.cantidad.v else 0
  }

  /** `it.get("cantidad", 1)`: the quantity written on the line. */
  function LineQty(it: OrderItem): int
  {
    if it.cantidad.Val? then it.cantidad.v else 1
  }

  /** The `monto_total` of a `/pedido` sale. Items that state no quantity
      add nothing, and with non-negative prices and quantities the total
      is non-negative. */
  function ClientTotal(items: seq<OrderItem>): (r: int)
    ensures (forall k :: 0 <= k < |items| ==> !items[k].cantidad.Val?) ==> r == 0
    ensures (forall k :: 0 <= k < |items| ==> ClientPrice(items[k]) >= 0 && TotalQty(items[k]) >= 0) ==> r >= 0
  {
    if items == [] then 0
    else
      var it := items[|items| - 1];
      ClientTotal(items[..|items| - 1]) + ClientPrice(it) * TotalQty(it)
  }

  /** The line `/pedido` writes for one item of sale `idVenta`. */
  function ClientLine(it: OrderItem, idVenta: nat): (l: SaleLine)
    ensures l.idVentas == idVenta && l.idClientes.None? && l.idMesa.None?
    ensures l.idMenuPlatos.Some? <==> it.tipo == Val("plato") && it.id.Val?
    ensures l.idMenuBebidas.Some? <==> it.tipo == Val("bebida") && it.id.Val?
    ensures !(l.idMenuPlatos.Some? && l.idMenuBebidas.Some?)
    ensures l.idMenuPlatos.Some? ==> l.idMenuPlatos.value == it.id.v
    ensures l.idMenuBebidas.Some? ==> l.idMenuBebidas.value == it.id.v
    ensures l.cantidad == (if it.cantidad.Val? then it.cantidad.v else 1)
    ensures l.precio == (if it.precio.Val? then it.precio.v else 0)
    ensures l.nombrePlato == (if it.tipo == Val("plato") then Some(Strip(OrEmpty(it.nombre))) else None)
    ensures l.nombreBebida == (if it.tipo == Val("bebida") then Some(Strip(OrEmpty(it.nombre))) else None)
  {
    var tipo := it.tipo;
    var nombre := Strip(OrEmpty(it.nombre));
    SaleLine(
      idVenta,
      if tipo == Val("plato") then ItemId(it) else None,
      if tipo == Val("bebida") then ItemId(it) else None,
      None,
      None,
      LineQty(it),
      if tipo == Val("plato") then Some(nombre) else None,
      if tipo == Val("bebida") then Some(nombre) else None,
      ClientPrice(it))
  }

  /** The lines `/pedido` writes: one per item, in request order. */
  function ClientLines(items: seq<OrderItem>, idVenta: nat): (r: seq<SaleLine>)
    ensures |r| == |items|
    ensures forall k :: 0 <= k < |items| ==> r[k] == ClientLine(items[k], idVenta)
  {
    if items == [] then []
    else ClientLines(items[..|items| - 1], idVenta) + [ClientLine(items[|items| - 1], idVenta)]
  }

  /** The client price summed over the items that state no quantity: each
      counts 0 towards `monto_total` but is written with quantity 1. */
  function MissingQtyAmount(items: seq<OrderItem>): (r: int)
    ensures (forall k :: 0 <= k < |items| ==> items[k].cantidad.Val?) ==> r == 0
  {
    if items == [] then 0
    else
      var it := items[|items| - 1];
      MissingQtyAmount(items[..|items| - 1]) + (if it.cantidad.Val? then 0 else ClientPrice(it))
  }

  /** The lines of a `/pedido` sale add up to its `monto_total` plus the
      price of every item that states no quantity: such an item adds 0 to
      the total but is written with quantity 1. */
  lemma {:induction false} MissingCantidadCountsDifferently(items: seq<OrderItem>, idVenta: nat)
    ensures LinesAmount(ClientLines(items, idVenta)) == ClientTotal(items) + MissingQtyAmount(items)
  {
    if items != [] {
      var init := items[..|items| - 1];
      MissingCantidadCountsDifferently(init, idVenta);
      var ls := ClientLines(items, idVenta);
      assert ls[..|ls| - 1] == ClientLines(init, idVenta);
    }
  }

  /** When every item states its quantity, the lines of a `/pedido` sale
      add up to its `monto_total`. */
  lemma ClientLinesTotal(items: seq<OrderItem>, idVenta: nat)
    requires forall k :: 0 <= k < |items| ==> items[k].cantidad.Val?
    ensures LinesAmount(ClientLines(items, idVenta)) == ClientTotal(items)
  {
    MissingCantidadCountsDifferently(items, idVenta);
  }

  // ---------------------------------------------------------------------
  // /realizarPedido: catalog prices

  /** `int(it.get("cantidad") or 0)`: an absent or null quantity is 0, so
      such an item is skipped. */
  function Qty(it: OrderItem): (q: int)
    ensures it.cantidad.Val? ==> q == it.cantidad.v
    ensures q != 0 ==> it.cantidad.Val?
  {
    if it.cantidad.Val? then it.cantidad.v else 0
  }

  /** Only `tipo == "plato"` is looked up among the dishes; anything else,
      an absent or null `tipo` included, is looked up among the drinks. */
  predicate AsPlato(it: OrderItem)
  {
    it.tipo == Val("plato")
  }

  /** `SELECT ... WHERE id = %s`: the first row with that id. A null id
      matches nothing. */
  function FindRow(rows: seq<MenuRow>, id: Option<int>): (r: Option<MenuRow>)
    ensures r.Some? ==> r.value in rows && id == Some(r.value.id)
    ensures r.None? ==> id.None? || forall k :: 0 <= k < |rows| ==> rows[k].id != id.value
  {
    if id.None? || rows == [] then None
    else if rows[0].id == id.value then Some(rows[0])
    else
      var r := FindRow(rows[1..], id);
      assert forall k :: 1 <= k < |rows| ==> rows[k] == rows[1..][k - 1];
      r
  }

  /** The catalog row an item resolves to: a dish for `tipo == "plato"`,
      a drink otherwise, with the item's id. */
  function Resolve(it: OrderItem, platos: seq<MenuRow>, bebidas: seq<MenuRow>): (r: Option<MenuRow>)
    ensures r.Some? ==> (if AsPlato(it) then r.value in platos else r.value in bebidas)
    ensures r.Some? ==> ItemId(it) == Some(r.value.id)
    ensures r.None? ==> ItemId(it).None? || forall row :: row in (if AsPlato(it) then platos else bebidas) ==> row.id != ItemId(it).value
  {
    FindRow(if AsPlato(it) then platos else bebidas, ItemId(it))
  }

  /** The item survives both filters: a positive quantity and a catalog row. */
  predicate Billed(it: OrderItem, platos: seq<MenuRow>, bebidas: seq<MenuRow>)
  {
    Qty(it) > 0 && Resolve(it, platos, bebidas).Some?
  }

  /** Every billed item among the first `n` has a catalog row with a
      price; otherwise `float(None)` raises during the first pass. */
  predicate Priced(items: seq<OrderItem>, n: nat, platos: seq<MenuRow>, bebidas: seq<MenuRow>)
    requires n <= |items|
  {
    forall k :: 0 <= k < n && Billed(items[k], platos, bebidas) ==>
      Resolve(items[k], platos, bebidas).value.precio.Some?
  }

  /** The total `/realizarPedido` computes from catalog prices over the
      first `n` items. */
  function CatalogTotal(items: seq<OrderItem>, n: nat, platos: seq<MenuRow>, bebidas: seq<MenuRow>): (r: int)
    requires n <= |items| && Priced(items, n, platos, bebidas)
    ensures (forall row :: row in platos + bebidas && row.precio.Some? ==> row.precio.value >= 0) ==> r >= 0
  {
    if n == 0 then 0
    else
      var it := items[n - 1];
      CatalogTotal(items, n - 1, platos, bebidas)
      + (if Billed(it, platos, bebidas) then Resolve(it, platos, bebidas).value.precio.value * Qty(it) else 0)
  }

  /** `l` names exactly one catalog row, of the kind its foreign key says,
      and carries that row's name and price. */
  predicate FromCatalog(l: SaleLine, platos: seq<MenuRow>, bebidas: seq<MenuRow>)
  {
    || (&& l.idMenuPlatos.Some? && l.idMenuBebidas.None? && l.nombreBebida.None?
        && exists row :: row in platos && row.id == l.idMenuPlatos.value
             && l.nombrePlato == Some(row.nombre) && row.precio == Some(l.precio))
    || (&& l.idMenuBebidas.Some? && l.idMenuPlatos.None? && l.nombrePlato.None?
        && exists row :: row in bebidas && row.id == l.idMenuBebidas.value
             && l.nombreBebida == Some(row.nombre) && row.precio == Some(l.precio))
  }

  /** The line `/realizarPedido` writes for a billed item resolved to `row`. */
  function CatalogLine(it: OrderItem, row: MenuRow, idVentas: nat, idMesa: nat): (l: SaleLine)
    requires row.precio.Some?
    ensures l.idVentas == idVentas && l.idMesa == Some(idMesa) && l.idClientes.None?
    ensures AsPlato(it) ==> && l.idMenuPlatos == Some(row.id) && l.idMenuBebidas.None?
                            && l.nombrePlato == Some(row.nombre) && l.nombreBebida.None?
    ensures !AsPlato(it) ==> && l.idMenuBebidas == Some(row.id) && l.idMenuPlatos.None?
                             && l.nombreBebida == Some(row.nombre) && l.nombrePlato.None?
    ensures l.cantidad == Qty(it) && row.precio == Some(l.precio)
  {
    if AsPlato(it) then
      SaleLine(idVentas, Some(row.id), None, None, Some(idMesa), Qty(it), Some(row.nombre), None, row.precio.value)
    else
      SaleLine(idVentas, None, Some(row.id), None, Some(idMesa), Qty(it), None, Some(row.nombre), row.precio.value)
  }

  /** Number of items with a positive quantity among the first `n` (each
      costs one look-up per pass). */
  function Positive(items: seq<OrderItem>, n: nat): nat
    requires n <= |items|
  {
    if n == 0 then 0
    else Positive(items, n - 1) + (if Qty(items[n - 1]) > 0 then 1 else 0)
  }

  /** Number of billed items among the first `n`. */
  function BilledCount(items: seq<OrderItem>, n: nat, platos: seq<MenuRow>, bebidas: seq<MenuRow>): nat
    requires n <= |items|
  {
    if n == 0 then 0
    else BilledCount(items, n - 1, platos, bebidas) + (if Billed(items[n - 1], platos, bebidas) then 1 else 0)
  }

  /** The lines `/realizarPedido` writes for the first `n` items of sale
      `idVentas` at table `idMesa`: one per billed item, in request order. */
  function CatalogLines(items: seq<OrderItem>, n: nat, platos: seq<MenuRow>, bebidas: seq<MenuRow>,
                        idVentas: nat, idMesa: nat): (r: seq<SaleLine>)
    requires n <= |items| && Priced(items, n, platos, bebidas)
    ensures |r| == BilledCount(items, n, platos, bebidas)
  {
    if n == 0 then []
    else
      var it := items[n - 1];
      var rest := CatalogLines(items, n - 1, platos, bebidas, idVentas, idMesa);
      if Billed(it, platos, bebidas) then
        rest + [CatalogLine(it, Resolve(it, platos, bebidas).value, idVentas, idMesa)]
      else rest
  }

  /** A line of sale `idVentas` at table `idMesa` as `/realizarPedido`
      writes it: no client, a positive quantity, and exactly one catalog
      row of the kind its foreign key says, with that row's name and price. */
  predicate RealizarLine(l: SaleLine, platos: seq<MenuRow>, bebidas: seq<MenuRow>, idVentas: nat, idMesa: nat)
  {
    && l.idVentas == idVentas && l.idMesa == Some(idMesa) && l.idClientes.None?
    && l.cantidad > 0 && FromCatalog(l, platos, bebidas)
  }

  /** Every line `/realizarPedido` writes has that shape. */
  lemma {:induction false} CatalogLinesShape(items: seq<OrderItem>, n: nat, platos: seq<MenuRow>, bebidas: seq<MenuRow>,
                                             idVentas: nat, idMesa: nat)
    requires n <= |items| && Priced(items, n, platos, bebidas)
    ensures forall l :: l in CatalogLines(items, n, platos, bebidas, idVentas, idMesa) ==>
              RealizarLine(l, platos, bebidas, idVentas, idMesa)
  {
    if n > 0 {
      var it := items[n - 1];
      CatalogLinesShape(items, n - 1, platos, bebidas, idVentas, idMesa);
      if Billed(it, platos, bebidas) {
        var l := CatalogLine(it, Resolve(it, platos, bebidas).value, idVentas, idMesa);
        assert RealizarLine(l, platos, bebidas, idVentas, idMesa);
      }
    }
  }

  /** The billed item at index `k` is written as the line whose position
      is the number of billed items before it: the line carries that
      item's id under the key its `tipo` selects, its quantity, and its
      catalog row's name and price. */
  lemma {:induction false} CatalogLinesAt(items: seq<OrderItem>, n: nat, platos: seq<MenuRow>, bebidas: seq<MenuRow>,
                                          idVentas: nat, idMesa: nat, k: nat)
    requires n <= |items| && Priced(items, n, platos, bebidas)
    requires k < n && Billed(items[k], platos, bebidas)
    ensures BilledCount(items, k, platos, bebidas) < |CatalogLines(items, n, platos, bebidas, idVentas, idMesa)|
    ensures var row := Resolve(items[k], platos, bebidas).value;
            var l := CatalogLines(items, n, platos, bebidas, idVentas, idMesa)[BilledCount(items, k, platos, bebidas)];
            && l == CatalogLine(items[k], row, idVentas, idMesa)
            && l.cantidad == Qty(items[k])
            && (if AsPlato(items[k]) then l.idMenuPlatos else l.idMenuBebidas) == ItemId(items[k])
    decreases n
  {
    CountsMonotone(items, k + 1, n, platos, bebidas);
    if k < n - 1 {
      CatalogLinesAt(items, n - 1, platos, bebidas, idVentas, idMesa, k);
    }
  }

  /** The lines of a `/realizarPedido` sale add up to its total. */
  lemma {:induction false} CatalogLinesTotal(items: seq<OrderItem>, n: nat, platos: seq<MenuRow>, bebidas: seq<MenuRow>,
                                             idVentas: nat, idMesa: nat)
    requires n <= |items| && Priced(items, n, platos, bebidas)
    ensures LinesAmount(CatalogLines(items, n, platos, bebidas, idVentas, idMesa)) == CatalogTotal(items, n, platos, bebidas)
  {
    if n > 0 {
      CatalogLinesTotal(items, n - 1, platos, bebidas, idVentas, idMesa);
      var rest := CatalogLines(items, n - 1, platos, bebidas, idVentas, idMesa);
      var it := items[n - 1];
      if Billed(it, platos, bebidas) {
        var line := CatalogLine(it, Resolve(it, platos, bebidas).value, idVentas, idMesa);
        LinesAmountAppend(rest, [line]);
        assert [line][..0] == [];
      }
    }
  }

  /** Items that are not billed (quantity not positive, or no catalog
      row) fail nothing and change neither the total nor the lines. */
  lemma {:induction false} UnbilledItemsIgnored(items: seq<OrderItem>, n: nat, m: nat,
                                                platos: seq<MenuRow>, bebidas: seq<MenuRow>,
                                                idVentas: nat, idMesa: nat)
    requires n <= m <= |items| && Priced(items, n, platos, bebidas)
    requires forall k :: n <= k < m ==> !Billed(items[k], platos, bebidas)
    ensures Priced(items, m, platos, bebidas)
    ensures CatalogTotal(items, m, platos, bebidas) == CatalogTotal(items, n, platos, bebidas)
    ensures CatalogLines(items, m, platos, bebidas, idVentas, idMesa)
            == CatalogLines(items, n, platos, bebidas, idVentas, idMesa)
    decreases m
  {
    if n < m {
      UnbilledItemsIgnored(items, n, m - 1, platos, bebidas, idVentas, idMesa);
    }
  }

  /** An order none of whose items is billed is priced, totals 0 and
      writes no line: the sale is still recorded, empty. */
  lemma NothingBilled(items: seq<OrderItem>, platos: seq<MenuRow>, bebidas: seq<MenuRow>, idVentas: nat, idMesa: nat)
    requires forall k :: 0 <= k < |items| ==> !Billed(items[k], platos, bebidas)
    ensures Priced(items, |items|, platos, bebidas)
    ensures CatalogTotal(items, |items|, platos, bebidas) == 0
    ensures CatalogLines(items, |items|, platos, bebidas, idVentas, idMesa) == []
  {
    UnbilledItemsIgnored(items, 0, |items|, platos, bebidas, idVentas, idMesa);
  }

  /** Counts over a prefix do not exceed counts over a longer prefix. */
  lemma {:induction false} CountsMonotone(items: seq<OrderItem>, i: nat, j: nat, platos: seq<MenuRow>, bebidas: seq<MenuRow>)
    requires i <= j <= |items|
    ensures Positive(items, i) <= Positive(items, j)
    ensures BilledCount(items, i, platos, bebidas) <= BilledCount(items, j, platos, bebidas)
    decreases j
  {
    if i < j {
      CountsMonotone(items, i, j - 1, platos, bebidas);
    }
  }

  /** Number of SQL statements a successful `/realizarPedido` executes:
      the table insert (and the look-up of an existing table), one catalog
      look-up per positive item in each pass, the sale insert, one line
      insert per billed item, and the commit. */
  function RealizarStatements(items: seq<OrderItem>, platos: seq<MenuRow>, bebidas: seq<MenuRow>,
                              tableExisted: bool): nat
  {
    (if tableExisted then 2 else 1) + Positive(items, |items|) + 1
    + Positive(items, |items|) + BilledCount(items, |items|, platos, bebidas) + 1
  }

  // ---------------------------------------------------------------------
  // The table step of /realizarPedido

  /** The `mesas` table after the table step, the id it yields, the next
      identity value, and whether the table number was already present. */
  datatype MesaStep = MesaStep(mesas: map<int, nat>, idMesa: nat, nextMesaId: nat, existed: bool)

  predicate IdsBelow(mesas: map<int, nat>, next: nat)
  {
    forall n :: n in mesas ==> mesas[n] < next
  }

  /** No two table numbers share an `id_mesa`. */
  predicate IdsDistinct(mesas: map<int, nat>)
  {
    forall n, m :: n in mesas && m in mesas && n != m ==> mesas[n] != mesas[m]
  }

  /** `INSERT INTO mesas (numero) ... ON CONFLICT (numero) DO NOTHING
      RETURNING id_mesa`, falling back to a `SELECT` on conflict. */
  function EnsureMesa(mesas: map<int, nat>, next: nat, numero: int): (r: MesaStep)
    requires IdsBelow(mesas, next)
    ensures numero in r.mesas && r.mesas[numero] == r.idMesa
    ensures r.existed <==> numero in mesas
    ensures r.mesas.Keys == mesas.Keys + {numero}
    ensures forall n :: n in mesas ==> r.mesas[n] == mesas[n]
    ensures r.existed ==> r.nextMesaId == next
    ensures !r.existed ==> r.idMesa == next && r.nextMesaId == next + 1 && forall n :: n in mesas ==> mesas[n] != r.idMesa
    ensures IdsBelow(r.mesas, r.nextMesaId)
    ensures IdsDistinct(mesas) ==> IdsDistinct(r.mesas)
  {
    if numero in mesas then MesaStep(mesas, mesas[numero], next, true)
    else
      MesaStep(mesas[numero := next], next, next + 1, false)
  }

  /** Running the table step a second time for the same number reuses the
      table the first run resolved and adds nothing. */
  lemma EnsureMesaIdempotent(mesas: map<int, nat>, next: nat, numero: int)
    requires IdsBelow(mesas, next)
    ensures var a := EnsureMesa(mesas, next, numero);
            var b := EnsureMesa(a.mesas, a.nextMesaId, numero);
            b.existed && b.idMesa == a.idMesa && b.mesas == a.mesas && b.nextMesaId == a.nextMesaId
  {
    var a := EnsureMesa(mesas, next, numero);
    var b := EnsureMesa(a.mesas, a.nextMesaId, numero);
    assert b.mesas.Keys == a.mesas.Keys;
  }
}
