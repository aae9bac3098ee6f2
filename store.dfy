/** The HTTP handlers of the backend as methods of an in-memory store that
    stands in for the PostgreSQL database. A handler that writes keeps its
    new rows in local variables and assigns them to the store only after
    its last statement (the commit) has succeeded, so every failure leaves
    the store exactly as it was: the rollback. */
module App {
  import opened Schema
  import opened Text
  import opened Catalog
  import opened Orders

  datatype Body =
    | Failure(message: string)
    | UserId(idUsuario: nat)
    | MenuBody(platos: seq<MenuEntry>, bebidas: seq<MenuEntry>)
    | VentaCreated(idVenta: nat)
    | OrderPlaced(idVentas: nat, mesa: int, total: int)

  /** An HTTP status with its JSON body; the body's `success` is true
      exactly for the bodies other than Failure. */
  datatype Response = Response(status: int, body: Body)

  /** The JSON body of `/register` and `/login`. */
  datatype Credentials = Credentials(username: Field<string>, password: Field<string>, email: Field<string>)

  /** `(data.get("username") or "").strip()`: empty exactly when the key
      is absent or null or holds only white space, and otherwise without
      white space at either end. */
  function UsernameOf(c: Credentials): (u: string)
    ensures u == [] <==> !c.username.Val? || Blank(c.username.v)
    ensures u != [] ==> !IsSpace(u[0]) && !IsSpace(u[|u| - 1])
  {
    StripEmptyIffBlank(OrEmpty(c.username));
    Strip(OrEmpty(c.username))
  }

  /** `data.get("password") or ""`: the password is not stripped, so it is
      empty only when the key is absent, null or the empty string. */
  function PasswordOf(c: Credentials): (p: string)
    ensures c.password.Val? ==> p == c.password.v
    ensures p == [] <==> !c.password.Val? || c.password.v == []
  {
    OrEmpty(c.password)
  }

  /** `(data.get("email") or "").strip() or None`: NULL exactly when the
      key is absent or null or holds only white space, and otherwise the
      stripped address. */
  function EmailOf(c: Credentials): (r: Option<string>)
    ensures r.None? <==> !c.email.Val? || Blank(c.email.v)
    ensures r.Some? ==> r.value == Strip(c.email.v) && !IsSpace(r.value[0]) && !IsSpace(r.value[|r.value| - 1])
  {
    StripEmptyIffBlank(OrEmpty(c.email));
    var e := Strip(OrEmpty(c.email));
    if e == [] then None else Some(e)
  }

  const RequiredMessage := "username y password son requeridos"
  const DuplicateMessage := "Username ya existe"
  const RegisterErrorMessage := "Error registrando usuario"
  const InvalidCredentialsMessage := "Credenciales inválidas"
  const LoginErrorMessage := "Error interno en login"
  const MenuErrorMessage := "Error cargando menú"
  const PedidoRequiredMessage := "Mesa e items son requeridos"
  const PedidoErrorMessage := "Error creando pedido"
  const RealizarRequiredMessage := "mesa e items son requeridos"
  /** The text of the TypeError that `float(None)` raises. */
  const NullPriceMessage := "float() argument must be a string or a real number, not 'NoneType'"
  /** Stands for the text of the error Python raises when `items` is a
      truthy value other than a list. */
  const NotAListMessage := "items is not a list"

  function VentaIds(vs: seq<Venta>): set<nat>
  {
    set k | 0 <= k < |vs| :: vs[k].id
  }

  lemma VentaIdsAppend(vs: seq<Venta>, v: Venta)
    ensures VentaIds(vs + [v]) == VentaIds(vs) + {v.id}
  {
    var ws := vs + [v];
    forall x | x in VentaIds(vs) ensures x in VentaIds(ws) {
      var k :| 0 <= k < |vs| && vs[k].id == x;
      assert ws[k].id == x;
    }
    assert ws[|vs|].id == v.id;
  }

  /** Some table number in `mesas` has the id `idMesa`. */
  ghost predicate NamesMesa(mesas: map<int, nat>, idMesa: nat)
  {
    exists n :: n in mesas && mesas[n] == idMesa
  }

  lemma MesaNamesKept(a: map<int, nat>, b: map<int, nat>)
    requires forall n :: n in a ==> n in b && b[n] == a[n]
    ensures forall idMesa :: NamesMesa(a, idMesa) ==> NamesMesa(b, idMesa)
  {
    forall idMesa | NamesMesa(a, idMesa) ensures NamesMesa(b, idMesa) {
      var n :| n in a && a[n] == idMesa;
      assert b[n] == idMesa;
    }
  }

  /** Identity values are below the next one and never reused, and every
      sale line refers to a stored sale and, when it names a table, to a
      stored table. */
  ghost predicate Consistent(users: map<string, User>, mesas: map<int, nat>, ventas: seq<Venta>,
                             lines: seq<SaleLine>, nextUserId: nat, nextMesaId: nat, nextVentaId: nat)
  {
    && (forall u :: u in users ==> users[u].id < nextUserId)
    && (forall u, w :: u in users && w in users && u != w ==> users[u].id != users[w].id)
    && IdsBelow(mesas, nextMesaId)
    && IdsDistinct(mesas)
    && (forall k :: 0 <= k < |ventas| ==> ventas[k].id < nextVentaId)
    && (forall k, j :: 0 <= k < j < |ventas| ==> ventas[k].id != ventas[j].id)
    && (forall k :: 0 <= k < |lines| ==> lines[k].idVentas in VentaIds(ventas))
    && (forall k :: 0 <= k < |lines| && lines[k].idMesa.Some? ==> NamesMesa(mesas, lines[k].idMesa.value))
  }

  /** Committing a sale with the next sale id, lines that belong to it and
      name only stored tables, and a `mesas` table that keeps every
      existing row, keeps the tables consistent. */
  lemma RecordSaleKeepsConsistent(users: map<string, User>, mesas: map<int, nat>, ventas: seq<Venta>,
                                  lines: seq<SaleLine>, nextUserId: nat, nextMesaId: nat, nextVentaId: nat,
                                  mesas': map<int, nat>, nextMesaId': nat, venta: Venta, added: seq<SaleLine>)
    requires Consistent(users, mesas, ventas, lines, nextUserId, nextMesaId, nextVentaId)
    requires forall n :: n in mesas ==> n in mesas' && mesas'[n] == mesas[n]
    requires IdsBelow(mesas', nextMesaId') && IdsDistinct(mesas')
    requires venta.id == nextVentaId
    requires forall l :: l in added ==>
               l.idVentas == nextVentaId && (l.idMesa.Some? ==> NamesMesa(mesas', l.idMesa.value))
    ensures Consistent(users, mesas', ventas + [venta], lines + added, nextUserId, nextMesaId', nextVentaId + 1)
  {
    VentaIdsAppend(ventas, venta);
    MesaNamesKept(mesas, mesas');
    var ls := lines + added;
    forall k | 0 <= k < |ls| ensures ls[k].idVentas in VentaIds(ventas + [venta]) {
      if k >= |lines| { assert ls[k] in added; }
    }
    forall k | 0 <= k < |ls| && ls[k].idMesa.Some? ensures NamesMesa(mesas', ls[k].idMesa.value) {
      if k >= |lines| { assert ls[k] in added; }
    }
  }

  /** Adding a user with the next user id under a new username keeps the
      tables consistent. */
  lemma AddUserKeepsConsistent(users: map<string, User>, mesas: map<int, nat>, ventas: seq<Venta>,
                               lines: seq<SaleLine>, nextUserId: nat, nextMesaId: nat, nextVentaId: nat,
                               username: string, user: User)
    requires Consistent(users, mesas, ventas, lines, nextUserId, nextMesaId, nextVentaId)
    requires username !in users && user.id == nextUserId
    ensures Consistent(users[username := user], mesas, ventas, lines, nextUserId + 1, nextMesaId, nextVentaId)
  {
  }

  class Store {
    /** `usuarios`, keyed by username: at most one row per username. */
    var users: map<string, User>
    /** `menu_de_platos` and `menu_de_bebidas`, joined to their categories;
        the handlers only read them. */
    const platos: seq<MenuRow>
    const bebidas: seq<MenuRow>
    /** `mesas`: table number to `id_mesa`. */
    var mesas: map<int, nat>
    var ventas: seq<Venta>
    var lines: seq<SaleLine>
    /** The next value of each identity column. */
    var nextUserId: nat
    var nextMesaId: nat
    var nextVentaId: nat

    /** The consistency of the stored tables (see `Consistent`). */
    ghost predicate Valid()
      reads this
    {
      Consistent(users, mesas, ventas, lines, nextUserId, nextMesaId, nextVentaId)
    }

    /** An empty database over the given catalogs; identity columns start at 1. */
    constructor (platos: seq<MenuRow>, bebidas: seq<MenuRow>)
      ensures Valid()
      ensures this.platos == platos && this.bebidas == bebidas
      ensures users == map[] && mesas == map[] && ventas == [] && lines == []
      ensures nextUserId == 1 && nextMesaId == 1 && nextVentaId == 1
    {
      this.platos := platos;
      this.bebidas := bebidas;
      users := map[];
      mesas := map[];
      ventas := [];
      lines := [];
      nextUserId, nextMesaId, nextVentaId := 1, 1, 1;
    }

    /** `POST /register`. Statements: the username look-up (0), the insert
        (1), the commit (2). */
    method Register(req: Credentials, pwHash: string, fault: Fault) returns (r: Response)
      requires Valid()
      modifies this
      ensures Valid()
      ensures mesas == old(mesas) && ventas == old(ventas) && lines == old(lines)
      ensures nextMesaId == old(nextMesaId) && nextVentaId == old(nextVentaId)
      ensures UsernameOf(req) == [] || PasswordOf(req) == [] ==>
                r == Response(400, Failure(RequiredMessage))
      ensures UsernameOf(req) != [] && PasswordOf(req) != [] ==>
                if Hits(fault, 1) then r == Response(500, Failure(RegisterErrorMessage))
                else if UsernameOf(req) in old(users) then r == Response(409, Failure(DuplicateMessage))
                else if Hits(fault, 3) then r == Response(500, Failure(RegisterErrorMessage))
                else r == Response(200, UserId(old(nextUserId)))
      ensures r.status == 200 ==>
                && users == old(users)[UsernameOf(req) := User(old(nextUserId), EmailOf(req), pwHash)]
                && nextUserId == old(nextUserId) + 1
                && (forall u :: u in old(users) ==> old(users)[u].id != old(nextUserId))
      ensures r.status != 200 ==> users == old(users) && nextUserId == old(nextUserId)
    {
      var username := UsernameOf(req);
      var password := PasswordOf(req);
      var email := EmailOf(req);
      if username == [] || password == [] {
        return Response(400, Failure(RequiredMessage));
      }
      if Hits(fault, 1) {
        return Response(500, Failure(RegisterErrorMessage));
      }
      if username in users {
        return Response(409, Failure(DuplicateMessage));
      }
      if Hits(fault, 3) {
        return Response(500, Failure(RegisterErrorMessage));
      }
      var id := nextUserId;
      AddUserKeepsConsistent(users, mesas, ventas, lines, nextUserId, nextMesaId, nextVentaId,
                             username, User(id, email, pwHash));
      users := users[username := User(id, email, pwHash)];
      nextUserId := nextUserId + 1;
      r := Response(200, UserId(id));
    }

    /** `POST /login`, with bcrypt's `checkpw` passed in as `matches`. An
        unknown username and a wrong password give the same response.
        Statement: the username look-up (0). */
    method Login(req: Credentials, matches: (string, string) -> bool, fault: Fault) returns (r: Response)
      ensures UsernameOf(req) == [] || PasswordOf(req) == [] ==>
                r == Response(400, Failure(RequiredMessage))
      ensures UsernameOf(req) != [] && PasswordOf(req) != [] && Hits(fault, 1) ==>
                r == Response(500, Failure(LoginErrorMessage))
      ensures UsernameOf(req) != [] && PasswordOf(req) != [] && !Hits(fault, 1) ==>
                && (r.status == 200 <==>
                      UsernameOf(req) in users && matches(PasswordOf(req), users[UsernameOf(req)].passwordHash))
                && (r.status == 200 ==> r.body == UserId(users[UsernameOf(req)].id))
                && (r.status != 200 ==> r == Response(401, Failure(InvalidCredentialsMessage)))
    {
      var username := UsernameOf(req);
      var password := PasswordOf(req);
      if username == [] || password == [] {
        return Response(400, Failure(RequiredMessage));
      }
      if Hits(fault, 1) {
        return Response(500, Failure(LoginErrorMessage));
      }
      if username !in users {
        return Response(401, Failure(InvalidCredentialsMessage));
      }
      var row := users[username];
      if !matches(password, row.passwordHash) {
        return Response(401, Failure(InvalidCredentialsMessage));
      }
      r := Response(200, UserId(row.id));
    }

    /** `GET /menu`. Statements: the dishes query (0), the drinks query (1). */
    method GetMenu(fault: Fault) returns (r: Response)
      ensures Hits(fault, 2) ==> r == Response(500, Failure(MenuErrorMessage))
      ensures !Hits(fault, 2) ==> r.status == 200 && r.body.MenuBody?
      ensures !Hits(fault, 2) ==>
                && Sorted(r.body.platos) && multiset(r.body.platos) == multiset(Joined(platos, "plato"))
                && Sorted(r.body.bebidas) && multiset(r.body.bebidas) == multiset(Joined(bebidas, "bebida"))
    {
      if Hits(fault, 2) {
        return Response(500, Failure(MenuErrorMessage));
      }
      r := Response(200, MenuBody(Listing(platos, "plato"), Listing(bebidas, "bebida")));
    }

    /** `POST /pedido`: the client's prices and quantities are trusted; no
        table row is resolved. The writes prepared by `PreparePedido` are
        made visible only when it answers 200. */
    method CrearPedido(req: OrderRequest, fault: Fault) returns (r: Response)
      requires Valid()
      modifies this
      ensures Valid()
      ensures users == old(users) && mesas == old(mesas)
      ensures nextUserId == old(nextUserId) && nextMesaId == old(nextMesaId)
      ensures r.status in {200, 400, 500}
      ensures r.status == 400 <==> !MesaGiven(req.mesa) || !req.items.ItemList? || req.items.elems == []
      ensures r.status == 200 <==>
                && MesaGiven(req.mesa) && req.items.ItemList? && req.items.elems != []
                && (forall k :: 0 <= k < |req.items.elems| ==> ClientTyped(req.items.elems[k]))
                && !Hits(fault, |req.items.elems| + 2)
      ensures r.status != 200 ==> unchanged(this)
      ensures r.status == 200 ==>
                && r.body == VentaCreated(old(nextVentaId))
                && ventas == old(ventas) + [Venta(old(nextVentaId), ClientTotal(req.items.elems), None, None)]
                && nextVentaId == old(nextVentaId) + 1
                && lines == old(lines) + ClientLines(req.items.elems, old(nextVentaId))
    {
      var staged;
      r, staged := PreparePedido(req, fault);
      if r.status == 200 {
        RecordSaleKeepsConsistent(users, mesas, ventas, lines, nextUserId, nextMesaId, nextVentaId,
                                  staged.mesas, staged.nextMesaId, staged.venta, staged.lines);
        Commit(staged);
      }
    }

    /** The transaction of `/pedido` up to and including its commit: the
        response and the rows the commit makes visible. Statements: the
        sale insert (0), one line insert per item (1 to |items|), the
        commit (|items| + 1). */
    method PreparePedido(req: OrderRequest, fault: Fault) returns (r: Response, staged: Staged)
      ensures r.status in {200, 400, 500}
      ensures r.status == 400 <==> !MesaGiven(req.mesa) || !req.items.ItemList? || req.items.elems == []
      ensures r.status == 400 ==> r.body == Failure(PedidoRequiredMessage)
      ensures r.status == 200 <==>
                && MesaGiven(req.mesa) && req.items.ItemList? && req.items.elems != []
                && (forall k :: 0 <= k < |req.items.elems| ==> ClientTyped(req.items.elems[k]))
                && !Hits(fault, |req.items.elems| + 2)
      ensures r.status == 500 ==> r.body == Failure(PedidoErrorMessage)
      ensures r.status == 200 ==>
                && r.body == VentaCreated(nextVentaId)
                && staged.mesas == mesas && staged.nextMesaId == nextMesaId
                && staged.venta == Venta(nextVentaId, ClientTotal(req.items.elems), None, None)
                && staged.lines == ClientLines(req.items.elems, nextVentaId)
    {
      staged := Staged(mesas, nextMesaId, Venta(nextVentaId, 0, None, None), []);
      if !MesaGiven(req.mesa) || !req.items.ItemList? || req.items.elems == [] {
        return Response(400, Failure(PedidoRequiredMessage)), staged;
      }
      var items := req.items.elems;
      var montoTotal := SumClientPrices(items);
      if montoTotal.None? {
        return Response(500, Failure(PedidoErrorMessage)), staged;
      }
      // INSERT INTO venta
      if Hits(fault, 1) {
        return Response(500, Failure(PedidoErrorMessage)), staged;
      }
      var idVenta := nextVentaId;
      var written := WriteClientLines(items, idVenta, fault);
      if written.Raised? {
        return Response(500, Failure(PedidoErrorMessage)), staged;
      }
      // commit
      if Hits(fault, |items| + 2) {
        return Response(500, Failure(PedidoErrorMessage)), staged;
      }
      staged := Staged(mesas, nextMesaId, Venta(idVenta, montoTotal.value, None, None), written.value);
      r := Response(200, VentaCreated(idVenta));
    }

    /** `POST /realizarPedido`: resolves the table, prices every item from
        the catalog, and writes the sale and its lines in one transaction.
        The writes prepared by `PrepareRealizar` are made visible only when
        it answers 200. */
    method RealizarPedido(req: OrderRequest, fault: Fault) returns (r: Response)
      requires Valid()
      modifies this
      ensures Valid()
      ensures users == old(users) && nextUserId == old(nextUserId)
      ensures r.status in {200, 400, 500}
      ensures r.status == 400 <==>
                !MesaGiven(req.mesa) || req.items == NonList(false) || req.items == ItemList([])
      ensures r.status == 200 <==>
                && MesaGiven(req.mesa) && req.items.ItemList? && req.items.elems != []
                && Priced(req.items.elems, |req.items.elems|, platos, bebidas)
                && !Hits(fault, RealizarStatements(req.items.elems, platos, bebidas, req.mesa.v in old(mesas)))
      ensures r.status != 200 ==> unchanged(this)
      ensures r.status == 200 ==>
                var items := req.items.elems;
                var step := EnsureMesa(old(mesas), old(nextMesaId), req.mesa.v);
                var total := CatalogTotal(items, |items|, platos, bebidas);
                && r.body == OrderPlaced(old(nextVentaId), req.mesa.v, total)
                && mesas == step.mesas && nextMesaId == step.nextMesaId
                && ventas == old(ventas) + [Venta(old(nextVentaId), total, Some(0), Some(total))]
                && nextVentaId == old(nextVentaId) + 1
                && lines == old(lines) + CatalogLines(items, |items|, platos, bebidas, old(nextVentaId), step.idMesa)
    {
      var staged;
      r, staged := PrepareRealizar(req, fault);
      if r.status == 200 {
        var step := EnsureMesa(mesas, nextMesaId, req.mesa.v);
        assert NamesMesa(staged.mesas, step.idMesa) by {
          assert staged.mesas[req.mesa.v] == step.idMesa;
        }
        CatalogLinesShape(req.items.elems, |req.items.elems|, platos, bebidas, nextVentaId, step.idMesa);
        RecordSaleKeepsConsistent(users, mesas, ventas, lines, nextUserId, nextMesaId, nextVentaId,
                                  staged.mesas, staged.nextMesaId, staged.venta, staged.lines);
        Commit(staged);
      }
    }

    /** Makes the staged rows visible: the table map and counter it
        carries, one more sale, its lines appended. */
    method Commit(staged: Staged)
      requires Consistent(users, staged.mesas, ventas + [staged.venta], lines + staged.lines,
                          nextUserId, staged.nextMesaId, nextVentaId + 1)
      modifies this
      ensures Valid()
      ensures users == old(users) && nextUserId == old(nextUserId)
      ensures mesas == staged.mesas && nextMesaId == staged.nextMesaId
      ensures ventas == old(ventas) + [staged.venta] && nextVentaId == old(nextVentaId) + 1
      ensures lines == old(lines) + staged.lines
    {
      mesas, nextMesaId := staged.mesas, staged.nextMesaId;
      ventas := ventas + [staged.venta];
      nextVentaId := nextVentaId + 1;
      lines := lines + staged.lines;
    }

    /** The transaction of `/realizarPedido` up to and including its
        commit: the response and the rows the commit makes visible.
        Statements are counted as `RealizarStatements` describes. */
    method PrepareRealizar(req: OrderRequest, fault: Fault) returns (r: Response, staged: Staged)
      requires IdsBelow(mesas, nextMesaId)
      ensures r.status in {200, 400, 500}
      ensures r.status == 400 <==>
                !MesaGiven(req.mesa) || req.items == NonList(false) || req.items == ItemList([])
      ensures r.status == 400 ==> r.body == Failure(RealizarRequiredMessage)
      ensures r.status == 200 <==>
                && MesaGiven(req.mesa) && req.items.ItemList? && req.items.elems != []
                && Priced(req.items.elems, |req.items.elems|, platos, bebidas)
                && !Hits(fault, RealizarStatements(req.items.elems, platos, bebidas, req.mesa.v in mesas))
      ensures r.status == 500 ==>
                r.body == Failure(NullPriceMessage) || r.body == Failure(NotAListMessage)
                || (fault.FailAt? && r.body == Failure(fault.message))
      ensures r.status == 200 ==>
                var items := req.items.elems;
                var step := EnsureMesa(mesas, nextMesaId, req.mesa.v);
                var total := CatalogTotal(items, |items|, platos, bebidas);
                && r.body == OrderPlaced(nextVentaId, req.mesa.v, total)
                && staged.mesas == step.mesas && staged.nextMesaId == step.nextMesaId
                && staged.venta == Venta(nextVentaId, total, Some(0), Some(total))
                && staged.lines == CatalogLines(items, |items|, platos, bebidas, nextVentaId, step.idMesa)
      ensures r.status == 200 ==> LinesAmount(staged.lines) == staged.venta.montoTotal
    {
      staged := Staged(mesas, nextMesaId, Venta(nextVentaId, 0, Some(0), Some(0)), []);
      if !MesaGiven(req.mesa) || req.items == NonList(false) || req.items == ItemList([]) {
        return Response(400, Failure(RealizarRequiredMessage)), staged;
      }
      var numero := req.mesa.v;

      // the table: INSERT ... ON CONFLICT DO NOTHING, then a SELECT when it existed
      var step := EnsureMesa(mesas, nextMesaId, numero);
      var stmt: nat := if step.existed then 2 else 1;
      if Hits(fault, stmt) {
        return Response(500, Failure(fault.message)), staged;
      }
      if req.items.NonList? {
        return Response(500, Failure(NotAListMessage)), staged;
      }
      var items := req.items.elems;

      var priced := PriceFromCatalog(items, platos, bebidas, fault, stmt);
      if priced.Raised? {
        return Response(500, Failure(priced.message)), staged;
      }
      var total := priced.value;

      // INSERT INTO venta (monto_total, perdidas, ganancias)
      stmt := stmt + Positive(items, |items|) + 1;
      if Hits(fault, stmt) {
        return Response(500, Failure(fault.message)), staged;
      }
      var idVentas := nextVentaId;

      var written := WriteCatalogLines(items, platos, bebidas, idVentas, step.idMesa, fault, stmt);
      if written.Raised? {
        return Response(500, Failure(written.message)), staged;
      }

      // commit
      stmt := stmt + Positive(items, |items|) + BilledCount(items, |items|, platos, bebidas) + 1;
      if Hits(fault, stmt) {
        return Response(500, Failure(fault.message)), staged;
      }
      CatalogLinesTotal(items, |items|, platos, bebidas, idVentas, step.idMesa);
      staged := Staged(step.mesas, step.nextMesaId, Venta(idVentas, total, Some(0), Some(total)), written.value);
      r := Response(200, OrderPlaced(idVentas, numero, total));
    }
  }

  /** The rows a transaction has written but not yet made visible: the
      `mesas` table as it will be, the next table id, the new sale and its
      lines. */
  datatype Staged = Staged(mesas: map<int, nat>, nextMesaId: nat, venta: Venta, lines: seq<SaleLine>)

  /** The outcome of a pass over the items that may raise: its result, or
      the text of the error raised. */
  datatype Outcome<T> = Completed(value: T) | Raised(message: string)

  /** The `sum(...)` of `/pedido`: None when `float(None)` or `int(None)`
      raises on an item, otherwise the sum of price times quantity, with 0
      for an absent price or quantity. */
  method SumClientPrices(items: seq<OrderItem>) returns (total: Option<int>)
    ensures total.None? <==> exists k :: 0 <= k < |items| && !ClientTyped(items[k])
    ensures total.Some? ==> total.value == ClientTotal(items)
  {
    var sum := 0;
    var i := 0;
    while i < |items|
      invariant 0 <= i <= |items|
      invariant forall k :: 0 <= k < i ==> ClientTyped(items[k])
      invariant sum == ClientTotal(items[..i])
    {
      var it := items[i];
      assert items[..i + 1][..i] == items[..i];
      if !ClientTyped(it) {
        return None;
      }
      sum := sum + ClientPrice(it) * TotalQty(it);
      i := i + 1;
    }
    assert items[..|items|] == items;
    total := Some(sum);
  }

  /** The line inserts of `/pedido`, statements 1 to |items|: one line per
      item, or the fault that strikes one of those inserts. */
  method WriteClientLines(items: seq<OrderItem>, idVenta: nat, fault: Fault)
    returns (res: Outcome<seq<SaleLine>>)
    requires !Hits(fault, 1)
    ensures res.Raised? <==> Hits(fault, |items| + 1)
    ensures res.Raised? ==> fault.FailAt? && res.message == fault.message
    ensures res.Completed? ==> res.value == ClientLines(items, idVenta)
  {
    var written: seq<SaleLine> := [];
    var i := 0;
    while i < |items|
      invariant 0 <= i <= |items|
      invariant written == ClientLines(items[..i], idVenta)
      invariant !Hits(fault, i + 1)
    {
      if Hits(fault, i + 2) {
        return Raised(fault.message);
      }
      assert items[..i + 1][..i] == items[..i];
      written := written + [ClientLine(items[i], idVenta)];
      i := i + 1;
    }
    assert items[..|items|] == items;
    res := Completed(written);
  }

  /** The first pass of `/realizarPedido`, whose catalog look-ups are the
      statements from `start` on: the total over the billed items, or the
      error raised by a fault or by a billed item whose price is null. */
  method PriceFromCatalog(items: seq<OrderItem>, platos: seq<MenuRow>, bebidas: seq<MenuRow>,
                          fault: Fault, start: nat) returns (res: Outcome<int>)
    requires !Hits(fault, start)
    ensures res.Raised? <==> !Priced(items, |items|, platos, bebidas) || Hits(fault, start + Positive(items, |items|))
    ensures res.Raised? ==> res.message == NullPriceMessage || (fault.FailAt? && res.message == fault.message)
    ensures res.Completed? ==>
              Priced(items, |items|, platos, bebidas) && res.value == CatalogTotal(items, |items|, platos, bebidas)
  {
    var total := 0;
    var stmt := start;
    var i := 0;
    while i < |items|
      invariant 0 <= i <= |items|
      invariant Priced(items, i, platos, bebidas)
      invariant total == CatalogTotal(items, i, platos, bebidas)
      invariant stmt == start + Positive(items, i)
      invariant !Hits(fault, stmt)
    {
      var it := items[i];
      var cantidad := Qty(it);
      if cantidad > 0 {
        stmt := stmt + 1;
        if Hits(fault, stmt) {
          CountsMonotone(items, i + 1, |items|, platos, bebidas);
          return Raised(fault.message);
        }
        var row := Resolve(it, platos, bebidas);
        if row.Some? {
          if row.value.precio.None? {
            assert Billed(items[i], platos, bebidas);
            return Raised(NullPriceMessage);
          }
          total := total + row.value.precio.value * cantidad;
        }
      }
      i := i + 1;
    }
    res := Completed(total);
  }

  /** The second pass of `/realizarPedido`, whose look-ups and inserts are
      the statements from `start` on: the lines of the billed items, or the
      fault that strikes one of those statements. */
  method WriteCatalogLines(items: seq<OrderItem>, platos: seq<MenuRow>, bebidas: seq<MenuRow>,
                           idVentas: nat, idMesa: nat, fault: Fault, start: nat)
    returns (res: Outcome<seq<SaleLine>>)
    requires Priced(items, |items|, platos, bebidas)
    requires !Hits(fault, start)
    ensures res.Raised? <==>
              Hits(fault, start + Positive(items, |items|) + BilledCount(items, |items|, platos, bebidas))
    ensures res.Raised? ==> fault.FailAt? && res.message == fault.message
    ensures res.Completed? ==> res.value == CatalogLines(items, |items|, platos, bebidas, idVentas, idMesa)
  {
    var written: seq<SaleLine> := [];
    var stmt := start;
    var i := 0;
    while i < |items|
      invariant 0 <= i <= |items|
      invariant Priced(items, i, platos, bebidas)
      invariant written == CatalogLines(items, i, platos, bebidas, idVentas, idMesa)
      invariant stmt == start + Positive(items, i) + BilledCount(items, i, platos, bebidas)
      invariant !Hits(fault, stmt)
    {
      var it := items[i];
      var cantidad := Qty(it);
      if cantidad > 0 {
        // The look-up, then the insert when the look-up finds a row.
        var row := Resolve(it, platos, bebidas);
        var executed := if row.Some? then 2 else 1;
        if Hits(fault, stmt + executed) {
          CountsMonotone(items, i + 1, |items|, platos, bebidas);
          return Raised(fault.message);
        }
        stmt := stmt + executed;
        if row.Some? {
          written := written + [CatalogLine(it, row.value, idVentas, idMesa)];
        }
      }
      i := i + 1;
    }
    res := Completed(written);
  }

  /** A user registered with a password can log in with it, when bcrypt's
      check accepts the stored hash for that password. */
  method RegisterThenLogin(s: Store, req: Credentials, pwHash: string, matches: (string, string) -> bool)
    returns (registered: Response, loggedIn: Response)
    requires s.Valid()
    requires UsernameOf(req) != [] && PasswordOf(req) != [] && UsernameOf(req) !in s.users
    requires matches(PasswordOf(req), pwHash)
    modifies s
    ensures s.Valid()
    ensures registered == Response(200, UserId(old(s.nextUserId)))
    ensures loggedIn == registered
  {
    registered := s.Register(req, pwHash, NoFault);
    loggedIn := s.Login(req, matches, NoFault);
  }

  /** Registering the same username twice: the first succeeds, the second
      is refused with 409 and leaves the stored user alone. */
  method RegisterTwice(s: Store, req: Credentials, firstHash: string, secondHash: string)
    returns (first: Response, second: Response)
    requires s.Valid()
    requires UsernameOf(req) != [] && PasswordOf(req) != [] && UsernameOf(req) !in s.users
    modifies s
    ensures s.Valid()
    ensures first.status == 200 && second == Response(409, Failure(DuplicateMessage))
    ensures s.users == old(s.users)[UsernameOf(req) := User(old(s.nextUserId), EmailOf(req), firstHash)]
  {
    first := s.Register(req, firstHash, NoFault);
    second := s.Register(req, secondHash, NoFault);
  }

  /** Two successful `/realizarPedido` calls for the same table number
      leave the `mesas` table as one call does, and both sales are written
      at the same table. */
  method OrderTwiceAtOneTable(s: Store, first: OrderRequest, second: OrderRequest)
    returns (r1: Response, r2: Response)
    requires s.Valid()
    requires first.mesa == second.mesa
    modifies s
    ensures s.Valid()
    ensures r1.status == 200 && r2.status == 200 && first.mesa.Val? ==>
              var step := EnsureMesa(old(s.mesas), old(s.nextMesaId), first.mesa.v);
              && s.mesas == step.mesas && s.nextMesaId == step.nextMesaId
              && |old(s.lines)| <= |s.lines|
              && forall l :: l in s.lines[|old(s.lines)|..] ==> l.idMesa == Some(step.idMesa)
  {
    ghost var mesas0, next0, lines0, venta0 := s.mesas, s.nextMesaId, s.lines, s.nextVentaId;
    r1 := s.RealizarPedido(first, NoFault);
    r2 := s.RealizarPedido(second, NoFault);
    if r1.status == 200 && r2.status == 200 {
      EnsureMesaIdempotent(mesas0, next0, first.mesa.v);
      var step := EnsureMesa(mesas0, next0, first.mesa.v);
      var added1 := CatalogLines(first.items.elems, |first.items.elems|, s.platos, s.bebidas, venta0, step.idMesa);
      var added2 := CatalogLines(second.items.elems, |second.items.elems|, s.platos, s.bebidas, venta0 + 1, step.idMesa);
      CatalogLinesShape(first.items.elems, |first.items.elems|, s.platos, s.bebidas, venta0, step.idMesa);
      CatalogLinesShape(second.items.elems, |second.items.elems|, s.platos, s.bebidas, venta0 + 1, step.idMesa);
      assert s.lines[|lines0|..] == added1 + added2;
    }
  }

  /** One dish at 10.00 ordered twice for table 7 gives a total of 20.00,
      one sale and one sale line. */
  method OrderOneDish() returns (s: Store, r: Response)
    ensures r == Response(200, OrderPlaced(1, 7, 2000))
    ensures |s.ventas| == 1 && |s.lines| == 1 && s.mesas == map[7 := 1]
  {
    var dish := MenuRow(1, "Lomo saltado", Some(1000), None, Some("Fondos"));
    s := new Store([dish], []);
    var item := OrderItem(Val(1), Val("plato"), Val(2), Missing, Missing);
    assert Resolve(item, [dish], []) == Some(dish);
    assert [item][..0] == [];
    assert Priced([item], 1, [dish], []);
    assert CatalogTotal([item], 1, [dish], []) == 2000;
    assert BilledCount([item], 1, [dish], []) == 1;
    r := s.RealizarPedido(OrderRequest(Missing, Val(7), ItemList([item])), NoFault);
  }

  /** An order whose only item names no catalog row is still accepted:
      the table is created and a sale totalling 0 with no lines is written. */
  method OrderUnknownItem(s: Store, numero: int, item: OrderItem) returns (r: Response)
    requires s.Valid() && numero != 0
    requires Resolve(item, s.platos, s.bebidas).None?
    modifies s
    ensures s.Valid()
    ensures r == Response(200, OrderPlaced(old(s.nextVentaId), numero, 0))
    ensures numero in s.mesas && s.lines == old(s.lines)
    ensures s.ventas == old(s.ventas) + [Venta(old(s.nextVentaId), 0, Some(0), Some(0))]
  {
    var step := EnsureMesa(s.mesas, s.nextMesaId, numero);
    NothingBilled([item], s.platos, s.bebidas, s.nextVentaId, step.idMesa);
    r := s.RealizarPedido(OrderRequest(Missing, Val(numero), ItemList([item])), NoFault);
  }
}
