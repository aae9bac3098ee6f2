/** The `/menu` projection: each catalog row that joins to a category
    becomes a menu entry tagged with its kind, with a missing price shown
    as 0, and each list is ordered by (categoria, nombre). */
module Catalog {
  import opened Schema
  import opened Text

  /** One element of the `platos` or `bebidas` list of the menu. */
  datatype MenuEntry = MenuEntry(
    id: int,
    nombre: string,
    precio: int,
    imagenUrl: Option<string>,
    categoria: string,
    tipo: string)

  /** `ORDER BY categoria, nombre`: x may come before y. */
  predicate Before(x: MenuEntry, y: MenuEntry)
  {
    Less(x.categoria, y.categoria)
    || (x.categoria == y.categoria && (x.nombre == y.nombre || Less(x.nombre, y.nombre)))
  }

  lemma BeforeTotal(x: MenuEntry, y: MenuEntry)
    ensures Before(x, y) || Before(y, x)
  {
    LessTrichotomy(x.categoria, y.categoria);
    LessTrichotomy(x.nombre, y.nombre);
  }

  lemma BeforeTransitive(x: MenuEntry, y: MenuEntry, z: MenuEntry)
    requires Before(x, y) && Before(y, z)
    ensures Before(x, z)
  {
    if Less(x.categoria, y.categoria) && Less(y.categoria, z.categoria) {
      LessTransitive(x.categoria, y.categoria, z.categoria);
    }
    if x.categoria == y.categoria == z.categoria && Less(x.nombre, y.nombre) && Less(y.nombre, z.nombre) {
      LessTransitive(x.nombre, y.nombre, z.nombre);
    }
  }

  predicate Sorted(s: seq<MenuEntry>)
  {
    forall i, j :: 0 <= i < j < |s| ==> Before(s[i], s[j])
  }

  /** Inserts `e` into a sorted list, keeping it sorted. */
  function Insert(e: MenuEntry, s: seq<MenuEntry>): (r: seq<MenuEntry>)
    requires Sorted(s)
    ensures Sorted(r)
    ensures multiset(r) == multiset(s) + multiset{e}
  {
    if s == [] then [e]
    else if Before(e, s[0]) then
      forall j | 0 <= j < |s| ensures Before(e, s[j]) {
        if j > 0 { BeforeTransitive(e, s[0], s[j]); }
      }
      ConsSorted(e, s);
      [e] + s
    else
      var t := Insert(e, s[1..]);
      HeadStaysFirst(e, s, t);
      ConsSorted(s[0], t);
      assert s == [s[0]] + s[1..];
      [s[0]] + t
  }

  /** An entry that goes before every element of a sorted list can be put
      in front of it. */
  lemma ConsSorted(x: MenuEntry, t: seq<MenuEntry>)
    requires Sorted(t)
    requires forall j :: 0 <= j < |t| ==> Before(x, t[j])
    ensures Sorted([x] + t)
  {
    var r := [x] + t;
    forall i, j | 0 <= i < j < |r| ensures Before(r[i], r[j]) {
      assert r[j] == t[j - 1];
      if i > 0 { assert r[i] == t[i - 1]; }
    }
  }

  /** When `e` does not go before the head of a sorted list, the head
      still goes before every element of any rearrangement of the tail
      with `e` added. */
  lemma HeadStaysFirst(e: MenuEntry, s: seq<MenuEntry>, t: seq<MenuEntry>)
    requires Sorted(s) && s != [] && !Before(e, s[0])
    requires multiset(t) == multiset(s[1..]) + multiset{e}
    ensures forall j :: 0 <= j < |t| ==> Before(s[0], t[j])
  {
    BeforeTotal(e, s[0]);
    forall j | 0 <= j < |t| ensures Before(s[0], t[j]) {
      assert t[j] in multiset(t);
      if t[j] != e {
        assert t[j] in multiset(s[1..]);
        var k :| 0 <= k < |s[1..]| && s[1..][k] == t[j];
        assert s[k + 1] == t[j];
      }
    }
  }

  /** Insertion sort under `Before`. */
  function Sort(s: seq<MenuEntry>): (r: seq<MenuEntry>)
    ensures Sorted(r)
    ensures multiset(r) == multiset(s)
  {
    if s == [] then []
    else
      var r := Insert(s[|s| - 1], Sort(s[..|s| - 1]));
      assert s == s[..|s| - 1] + [s[|s| - 1]];
      r
  }

  /** The price `/menu` shows for a row: the stored price, or 0 when it
      is NULL; never negative when the stored price is not. */
  function ShownPrice(row: MenuRow): (p: int)
    ensures row.precio.Some? ==> p == row.precio.value
    ensures row.precio.None? ==> p == 0
    ensures (row.precio.Some? ==> row.precio.value >= 0) ==> p >= 0
  {
    if row.precio.Some? then row.precio.value else 0
  }

  /** `e` is what `/menu` shows for `row`, tagged `tipo`. */
  predicate Shows(e: MenuEntry, row: MenuRow, tipo: string)
  {
    && row.categoria == Some(e.categoria)
    && e.id == row.id
    && e.nombre == row.nombre
    && e.precio == ShownPrice(row)
    && e.imagenUrl == row.imagenUrl
    && e.tipo == tipo
  }

  function Entry(row: MenuRow, tipo: string): (e: MenuEntry)
    requires row.categoria.Some?
    ensures Shows(e, row, tipo)
  {
    MenuEntry(row.id, row.nombre, ShownPrice(row), row.imagenUrl, row.categoria.value, tipo)
  }

  /** The rows that survive the INNER JOIN with the category table,
      projected to menu entries, in table order. */
  function Joined(rows: seq<MenuRow>, tipo: string): (r: seq<MenuEntry>)
    ensures forall e :: e in r <==> exists k :: 0 <= k < |rows| && Shows(e, rows[k], tipo)
  {
    if rows == [] then []
    else
      var rest := Joined(rows[..|rows| - 1], tipo);
      var last := rows[|rows| - 1];
      var r := if last.categoria.Some? then rest + [Entry(last, tipo)] else rest;
      assert forall e :: e in r <==> exists k :: 0 <= k < |rows| && Shows(e, rows[k], tipo) by {
        forall e ensures e in r <==> exists k :: 0 <= k < |rows| && Shows(e, rows[k], tipo) {
          if e in r {
            if e in rest {
              var k :| 0 <= k < |rows| - 1 && Shows(e, rows[..|rows| - 1][k], tipo);
              assert Shows(e, rows[k], tipo);
            } else {
              assert Shows(e, rows[|rows| - 1], tipo);
            }
          }
          if exists k :: 0 <= k < |rows| && Shows(e, rows[k], tipo) {
            var k :| 0 <= k < |rows| && Shows(e, rows[k], tipo);
            if k < |rows| - 1 {
              assert Shows(e, rows[..|rows| - 1][k], tipo);
            } else {
              assert e == Entry(last, tipo);
            }
          }
        }
      }
      r
  }

  /** One list of `/menu`: the joined rows of one catalog, ordered by
      (categoria, nombre). */
  function Listing(rows: seq<MenuRow>, tipo: string): (r: seq<MenuEntry>)
    ensures Sorted(r)
    ensures multiset(r) == multiset(Joined(rows, tipo))
  {
    Sort(Joined(rows, tipo))
  }

  /** An entry is listed exactly when it is the projection of a catalog
      row that has a category: its price is the stored one or 0, and it
      carries the kind it was listed under. */
  lemma ListingMember(rows: seq<MenuRow>, tipo: string, e: MenuEntry)
    ensures e in Listing(rows, tipo) <==> exists k :: 0 <= k < |rows| && Shows(e, rows[k], tipo)
  {
    var l := Listing(rows, tipo);
    assert e in l <==> e in multiset(l);
    assert e in Joined(rows, tipo) <==> e in multiset(Joined(rows, tipo));
  }

  /** With non-negative stored prices, every listed price is non-negative,
      including those of rows whose price is absent. */
  lemma ListingPricesNonNegative(rows: seq<MenuRow>, tipo: string)
    requires forall k :: 0 <= k < |rows| && rows[k].precio.Some? ==> rows[k].precio.value >= 0
    ensures forall e :: e in Listing(rows, tipo) ==> e.precio >= 0
  {
    forall e | e in Listing(rows, tipo) ensures e.precio >= 0 {
      ListingMember(rows, tipo, e);
    }
  }
}
