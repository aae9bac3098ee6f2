/** Rows of the restaurant database, the shape of JSON request fields, and
    the way a database failure is injected into a handler. Money is kept in
    integer cents throughout. */
module Schema {

  datatype Option<+T> = None | Some(value: T)

  /** One key of a JSON request object: absent, present with `null`, or
      present with a value. Python's `d.get(k, default)` and
      `d.get(k) or default` treat the first two differently. */
  datatype Field<+T> = Missing | Null | Val(v: T)

  /** `data.get(key) or ""` for a key that holds a string. */
  function OrEmpty(f: Field<string>): string
  {
    if f.Val? then f.v else ""
  }

  /** A row of `menu_de_platos` or `menu_de_bebidas`. `categoria` is the
      name of the category the row joins to, or None when its category id
      matches no row of the category table. */
  datatype MenuRow = MenuRow(
    id: int,
    nombre: string,
    precio: Option<int>,
    imagenUrl: Option<string>,
    categoria: Option<string>)

  /** A row of `usuarios`, keyed by username in the store. */
  datatype User = User(id: nat, email: Option<string>, passwordHash: string)

  /** A row of `venta`. */
  datatype Venta = Venta(id: nat, montoTotal: int, perdidas: Option<int>, ganancias: Option<int>)

  /** A row of `ventas_clientes_menu_bebidas_menu_platos`. */
  datatype SaleLine = SaleLine(
    idVentas: nat,
    idMenuPlatos: Option<int>,
    idMenuBebidas: Option<int>,
    idClientes: Option<int>,
    idMesa: Option<nat>,
    cantidad: int,
    nombrePlato: Option<string>,
    nombreBebida: Option<string>,
    precio: int)

  /** Price times quantity, summed over sale lines. */
  function LinesAmount(ls: seq<SaleLine>): int
  {
    if ls == [] then 0
    else LinesAmount(ls[..|ls| - 1]) + ls[|ls| - 1].precio * ls[|ls| - 1].cantidad
  }

  lemma {:induction false} LinesAmountAppend(a: seq<SaleLine>, b: seq<SaleLine>)
    ensures LinesAmount(a + b) == LinesAmount(a) + LinesAmount(b)
    decreases |b|
  {
    if b != [] {
      var b' := b[..|b| - 1];
      assert (a + b)[..|a + b| - 1] == a + b';
      LinesAmountAppend(a, b');
    } else {
      assert a + b == a;
    }
  }

  /** A database failure: `FailAt(k, m)` makes the k-th SQL statement
      (counted from 0, commit included) that a handler executes raise an
      error whose text is `m`. */
  datatype Fault = NoFault | FailAt(stmt: nat, message: string)

  /** Does the fault strike within the first `executed` statements? */
  predicate Hits(f: Fault, executed: nat)
  {
    f.FailAt? && f.stmt < executed
  }
}
