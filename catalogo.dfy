/**
  The public catalogue page (public/js/catalogo.js): the category list, the
  category-and-name filter, and the shopping cart `carrito` with its total.
*/
module Catalogo {
  import opened Wrappers
  import opened Seqs
  import opened Texto
  import opened Productos

  /** A cart line: the product id plus a snapshot of its name and price taken when it was added. */
  datatype Linea = Linea(id: int, nombre: string, precio: int, cantidad: int)

  function IdsLineas(c: seq<Linea>): (r: seq<int>)
    ensures |r| == |c|
    ensures forall i :: 0 <= i < |c| ==> r[i] == c[i].id
  {
    seq(|c|, i requires 0 <= i < |c| => c[i].id)
  }

  /** The cart invariant: at most one line per product id. */
  predicate LineasUnicas(c: seq<Linea>)
  {
    NoDup(IdsLineas(c))
  }

  /** The index `carrito.find(x => x.id === id)` lands on, or -1. */
  function BuscarLinea(c: seq<Linea>, id: int): (k: int)
    ensures -1 <= k < |c|
    ensures k == -1 <==> forall i :: 0 <= i < |c| ==> c[i].id != id
    ensures 0 <= k ==> c[k].id == id && forall j :: 0 <= j < k ==> c[j].id != id
  {
    IndexOf(IdsLineas(c), id)
  }

  /**
    `agregarCarrito(id)` with quantity `cant`: add to the existing line, or
    append a snapshot of the product; with neither a line nor a product, reading
    `p.nombre` throws and the cart stays as it was.
  */
  function Agregar(c: seq<Linea>, ps: seq<Product>, id: int, cant: int): seq<Linea>
  {
    var k := BuscarLinea(c, id);
    if k != -1 then c[k := c[k].(cantidad := c[k].cantidad + cant)]
    else match Buscar(ps, id)
      case Some(p) => c + [Linea(id, p.nombre, p.precio, cant)]
      case None => c
  }

  /** `actualizarCantidad(id, n)`: overwrite the quantity of the line found, without validation. */
  function Actualizar(c: seq<Linea>, id: int, n: int): seq<Linea>
  {
    var k := BuscarLinea(c, id);
    if k != -1 then c[k := c[k].(cantidad := n)] else c
  }

  function OtroId(id: int): Linea -> bool
  {
    (l: Linea) => l.id != id
  }

  function MismoId(id: int): Linea -> bool
  {
    (l: Linea) => l.id == id
  }

  /** `eliminarDelCarrito(id)`: `carrito.filter(item => item.id !== id)`. */
  function Quitar(c: seq<Linea>, id: int): seq<Linea>
  {
    Filter(OtroId(id), c)
  }

  function Subtotal(l: Linea): int
  {
    l.cantidad * l.precio
  }

  /** The sum of `cantidad * precio` over the lines, in order. */
  function Suma(c: seq<Linea>): int
  {
    if c == [] then 0 else Suma(c[..|c| - 1]) + Subtotal(c[|c| - 1])
  }

  /** `c.reduce((a, b) => a + b.cantidad * b.precio, acc)`. */
  function Reducir(acc: int, c: seq<Linea>): int
    decreases |c|
  {
    if c == [] then acc else Reducir(acc + Subtotal(c[0]), c[1..])
  }

  // ---------------------------------------------------------------- cart lemmas

  /** Adding to an id that has a line raises that line's quantity and changes nothing else. */
  lemma AgregarExistente(c: seq<Linea>, ps: seq<Product>, id: int, cant: int)
    requires BuscarLinea(c, id) != -1
    ensures var k := BuscarLinea(c, id);
      && |Agregar(c, ps, id, cant)| == |c|
      && Agregar(c, ps, id, cant)[k] == Linea(id, c[k].nombre, c[k].precio, c[k].cantidad + cant)
      && forall j :: 0 <= j < |c| && j != k ==> Agregar(c, ps, id, cant)[j] == c[j]
  {
  }

  /** Adding an id with no line appends the product's snapshot at the end. */
  lemma AgregarNuevo(c: seq<Linea>, ps: seq<Product>, id: int, cant: int)
    requires BuscarLinea(c, id) == -1
    ensures Buscar(ps, id).Some? ==>
      Agregar(c, ps, id, cant) == c + [Linea(id, Buscar(ps, id).value.nombre, Buscar(ps, id).value.precio, cant)]
    ensures Buscar(ps, id).None? ==> Agregar(c, ps, id, cant) == c
  {
  }

  /** The first line carrying `id` is the one `find` lands on. */
  lemma BuscarLineaEn(c: seq<Linea>, id: int, k: int)
    requires 0 <= k < |c| && c[k].id == id
    requires forall j :: 0 <= j < k ==> c[j].id != id
    ensures BuscarLinea(c, id) == k
  {
  }

  lemma AgregarDosVecesExistente(c: seq<Linea>, ps: seq<Product>, id: int, q1: int, q2: int)
    requires BuscarLinea(c, id) != -1
    ensures Agregar(Agregar(c, ps, id, q1), ps, id, q2) == Agregar(c, ps, id, q1 + q2)
  {
    var k := BuscarLinea(c, id);
    var c1 := Agregar(c, ps, id, q1);
    AgregarExistente(c, ps, id, q1);
    BuscarLineaEn(c1, id, k);
    AgregarExistente(c1, ps, id, q2);
    AgregarExistente(c, ps, id, q1 + q2);
    var r1, r2 := Agregar(c1, ps, id, q2), Agregar(c, ps, id, q1 + q2);
    forall j | 0 <= j < |r1| ensures r1[j] == r2[j] {
    }
  }

  lemma AgregarDosVecesNuevo(c: seq<Linea>, p: Product, ps: seq<Product>, id: int, q1: int, q2: int)
    requires BuscarLinea(c, id) == -1 && Buscar(ps, id) == Some(p)
    ensures Agregar(Agregar(c, ps, id, q1), ps, id, q2) == Agregar(c, ps, id, q1 + q2)
  {
    var c1 := Agregar(c, ps, id, q1);
    AgregarNuevo(c, ps, id, q1);
    AgregarNuevo(c, ps, id, q1 + q2);
    assert c1 == c + [Linea(id, p.nombre, p.precio, q1)];
    BuscarLineaEn(c1, id, |c|);
    AgregarExistente(c1, ps, id, q2);
    var r1, r2 := Agregar(c1, ps, id, q2), Agregar(c, ps, id, q1 + q2);
    forall j | 0 <= j < |r1| ensures r1[j] == r2[j] {
    }
  }

  /** Adding `q1` and then `q2` of one id is adding `q1 + q2` once. */
  lemma AgregarDosVeces(c: seq<Linea>, ps: seq<Product>, id: int, q1: int, q2: int)
    ensures Agregar(Agregar(c, ps, id, q1), ps, id, q2) == Agregar(c, ps, id, q1 + q2)
  {
    if BuscarLinea(c, id) != -1 {
      AgregarDosVecesExistente(c, ps, id, q1, q2);
    } else if Buscar(ps, id).Some? {
      AgregarDosVecesNuevo(c, Buscar(ps, id).value, ps, id, q1, q2);
    }
  }

  /** Adding keeps at most one line per id. */
  lemma AgregarConservaUnicas(c: seq<Linea>, ps: seq<Product>, id: int, cant: int)
    requires LineasUnicas(c)
    ensures LineasUnicas(Agregar(c, ps, id, cant))
  {
    var k := BuscarLinea(c, id);
    var r := Agregar(c, ps, id, cant);
    if k != -1 {
      assert IdsLineas(r) == IdsLineas(c);
    } else if Buscar(ps, id).Some? {
      assert IdsLineas(r) == IdsLineas(c) + [id];
      NoDupConcat(IdsLineas(c), [id]);
    }
  }

  /** Replacing a quantity touches only the line found, and nothing when there is none. */
  lemma ActualizarSpec(c: seq<Linea>, id: int, n: int)
    ensures |Actualizar(c, id, n)| == |c|
    ensures IdsLineas(Actualizar(c, id, n)) == IdsLineas(c)
    ensures BuscarLinea(c, id) == -1 ==> Actualizar(c, id, n) == c
    ensures BuscarLinea(c, id) != -1 ==>
      Actualizar(c, id, n)[BuscarLinea(c, id)] == c[BuscarLinea(c, id)].(cantidad := n)
    ensures forall j :: 0 <= j < |c| && j != BuscarLinea(c, id) ==> Actualizar(c, id, n)[j] == c[j]
    ensures LineasUnicas(c) ==> LineasUnicas(Actualizar(c, id, n))
  {
    assert IdsLineas(Actualizar(c, id, n)) == IdsLineas(c);
  }

  lemma QuitarAusente(c: seq<Linea>, id: int)
    ensures BuscarLinea(c, id) == -1 ==> Quitar(c, id) == c
  {
    if BuscarLinea(c, id) == -1 {
      FilterAll(OtroId(id), c);
    }
  }

  /** Removing drops every line with the id, keeps the others in order, and is a no-op for an absent id. */
  lemma QuitarSpec(c: seq<Linea>, id: int)
    ensures forall l :: l in Quitar(c, id) <==> l in c && l.id != id
    ensures IsSubseq(Quitar(c, id), c)
    ensures forall l :: multiset(Quitar(c, id))[l] == if l.id != id then multiset(c)[l] else 0
    ensures BuscarLinea(c, id) == -1 ==> Quitar(c, id) == c
    ensures LineasUnicas(c) ==> LineasUnicas(Quitar(c, id))
  {
    var f := OtroId(id);
    QuitarAusente(c, id);
    if LineasUnicas(c) {
      QuitarUnicas(c, id);
    }
    FilterSpec(f, c);
  }

  function NoEs(id: int): int -> bool
  {
    (x: int) => x != id
  }

  /** The ids left after removing are the old ids without `id`. */
  lemma {:induction false} IdsQuitar(c: seq<Linea>, id: int)
    ensures IdsLineas(Quitar(c, id)) == Filter(NoEs(id), IdsLineas(c))
  {
    if c != [] {
      IdsQuitar(c[1..], id);
      var t := Quitar(c[1..], id);
      assert IdsLineas(c)[1..] == IdsLineas(c[1..]);
      if c[0].id != id {
        assert Quitar(c, id) == [c[0]] + t;
        assert IdsLineas([c[0]] + t) == [c[0].id] + IdsLineas(t);
      }
    }
  }

  lemma QuitarUnicas(c: seq<Linea>, id: int)
    requires LineasUnicas(c)
    ensures LineasUnicas(Quitar(c, id))
  {
    IdsQuitar(c, id);
    FilterNoDup(NoEs(id), IdsLineas(c));
  }

  lemma {:induction false} SumaConcat(a: seq<Linea>, b: seq<Linea>)
    ensures Suma(a + b) == Suma(a) + Suma(b)
    decreases |b|
  {
    if b == [] {
      assert a + b == a;
    } else {
      var b', x := b[..|b| - 1], b[|b| - 1];
      assert a + b == (a + b') + [x];
      assert (a + b)[..|a + b| - 1] == a + b';
      SumaConcat(a, b');
    }
  }

  /** The `reduce` of the order message and the loop of `mostrarCarrito` compute the same total. */
  lemma {:induction false} ReducirEsSuma(acc: int, c: seq<Linea>)
    ensures Reducir(acc, c) == acc + Suma(c)
    decreases |c|
  {
    if c != [] {
      ReducirEsSuma(acc + Subtotal(c[0]), c[1..]);
      assert c == [c[0]] + c[1..];
      SumaConcat([c[0]], c[1..]);
      assert [c[0]][..0] == [];
    }
  }

  lemma SumaCambiar(c: seq<Linea>, k: int, l: Linea)
    requires 0 <= k < |c|
    ensures Suma(c[k := l]) == Suma(c) - Subtotal(c[k]) + Subtotal(l)
  {
    var a, b := c[..k], c[k + 1..];
    assert c == a + [c[k]] + b;
    assert c[k := l] == a + [l] + b;
    SumaConcat(a + [c[k]], b);
    SumaConcat(a, [c[k]]);
    SumaConcat(a + [l], b);
    SumaConcat(a, [l]);
    assert [c[k]][..0] == [] && [l][..0] == [];
  }

  /** The total after adding grows by `cant` times the line's (or the snapshot's) price. */
  lemma AgregarSumaExistente(c: seq<Linea>, ps: seq<Product>, id: int, cant: int)
    requires BuscarLinea(c, id) != -1
    ensures Suma(Agregar(c, ps, id, cant)) == Suma(c) + cant * c[BuscarLinea(c, id)].precio
  {
    var k := BuscarLinea(c, id);
    var l := c[k];
    var l' := l.(cantidad := l.cantidad + cant);
    SumaCambiar(c, k, l');
    assert (l.cantidad + cant) * l.precio == l.cantidad * l.precio + cant * l.precio;
  }

  lemma AgregarSuma(c: seq<Linea>, ps: seq<Product>, id: int, cant: int)
    ensures BuscarLinea(c, id) != -1 ==>
      Suma(Agregar(c, ps, id, cant)) == Suma(c) + cant * c[BuscarLinea(c, id)].precio
    ensures BuscarLinea(c, id) == -1 && Buscar(ps, id).Some? ==>
      Suma(Agregar(c, ps, id, cant)) == Suma(c) + cant * Buscar(ps, id).value.precio
    ensures BuscarLinea(c, id) == -1 && Buscar(ps, id).None? ==> Suma(Agregar(c, ps, id, cant)) == Suma(c)
  {
    var k := BuscarLinea(c, id);
    if k != -1 {
      AgregarSumaExistente(c, ps, id, cant);
    } else if Buscar(ps, id).Some? {
      var p := Buscar(ps, id).value;
      var l := Linea(id, p.nombre, p.precio, cant);
      assert (c + [l])[..|c|] == c;
    }
  }

  /** The total splits into the lines with an id and the lines `eliminarDelCarrito` keeps. */
  lemma {:induction false} QuitarSuma(c: seq<Linea>, id: int)
    ensures Suma(c) == Suma(Quitar(c, id)) + Suma(Filter(MismoId(id), c))
  {
    if c != [] {
      var t := c[1..];
      QuitarSuma(t, id);
      assert c == [c[0]] + t;
      SumaConcat([c[0]], t);
      assert [c[0]][..0] == [];
      if c[0].id != id {
        assert Quitar(c, id) == [c[0]] + Quitar(t, id);
        assert Filter(MismoId(id), c) == Filter(MismoId(id), t);
        SumaConcat([c[0]], Quitar(t, id));
      } else {
        assert Quitar(c, id) == Quitar(t, id);
        assert Filter(MismoId(id), c) == [c[0]] + Filter(MismoId(id), t);
        SumaConcat([c[0]], Filter(MismoId(id), t));
      }
    }
  }

  // ---------------------------------------------------------------- public filter

  /** The `filter` by `terminoBusqueda` on the lower-cased name. */
  function NombreContiene(q: string): Product -> bool
  {
    (p: Product) => Contiene(Minusculas(p.nombre), q)
  }

  /** The query `buscador.value.toLowerCase().trim()`. */
  function Termino(busqueda: string): string
  {
    Recortar(Minusculas(busqueda))
  }

  /** Both `filter` callbacks of `mostrarPorCategoria` at once, for the prepared term `q`. */
  predicate CoincidePublico(p: Product, cat: string, q: string)
  {
    (cat == "Todas" || p.categoria == cat) && (q == "" || Contiene(Minusculas(p.nombre), q))
  }

  function FiltroPublico(cat: string, q: string): Product -> bool
  {
    (p: Product) => CoincidePublico(p, cat, q)
  }

  /** The list `mostrarPorCategoria` renders. */
  function FiltrarPublico(ps: seq<Product>, cat: string, busqueda: string): seq<Product>
  {
    var porCat := if cat != "Todas" then Filter(DeCategoria(cat), ps) else ps;
    var q := Termino(busqueda);
    if q != "" then Filter(NombreContiene(q), porCat) else porCat
  }

  /** The two successive `filter` calls select what one pass with both tests selects. */
  lemma FiltrarPublicoUnaPasada(ps: seq<Product>, cat: string, q: string)
    ensures (var porCat := if cat != "Todas" then Filter(DeCategoria(cat), ps) else ps;
             if q != "" then Filter(NombreContiene(q), porCat) else porCat)
            == Filter(FiltroPublico(cat, q), ps)
  {
    var fc := DeCategoria(cat);
    var fn := NombreContiene(q);
    var g := FiltroPublico(cat, q);
    if cat != "Todas" && q != "" {
      FilterFilter(fc, fn, g, ps);
    } else if cat != "Todas" {
      FilterSame(fc, g, ps);
    } else if q != "" {
      FilterSame(fn, g, ps);
    } else {
      FilterAll(g, ps);
    }
  }

  /**
    The public filter keeps, in order, exactly the products of the chosen
    category (any for "Todas") whose lower-cased name contains the term;
    category and price are not searched.
  */
  lemma FiltrarPublicoSpec(ps: seq<Product>, cat: string, busqueda: string)
    ensures FiltrarPublico(ps, cat, busqueda) == Filter(FiltroPublico(cat, Termino(busqueda)), ps)
    ensures IsSubseq(FiltrarPublico(ps, cat, busqueda), ps)
    ensures forall p :: p in FiltrarPublico(ps, cat, busqueda) <==> p in ps && CoincidePublico(p, cat, Termino(busqueda))
    ensures forall p :: multiset(FiltrarPublico(ps, cat, busqueda))[p] ==
                        if CoincidePublico(p, cat, Termino(busqueda)) then multiset(ps)[p] else 0
  {
    var q := Termino(busqueda);
    var g := FiltroPublico(cat, q);
    assert FiltrarPublico(ps, cat, busqueda) == Filter(g, ps) by {
      FiltrarPublicoUnaPasada(ps, cat, q);
    }
    FilterSpec(g, ps);
  }

  /** "Todas" with an empty search shows the whole catalogue. */
  lemma FiltrarPublicoTodo(ps: seq<Product>)
    ensures FiltrarPublico(ps, "Todas", "") == ps
  {
    assert Termino("") == "";
  }

  /** The public category list: `[...new Set(productos.map(p => p.categoria))]`, empty categories included. */
  function CategoriasPublicas(ps: seq<Product>): seq<string>
  {
    Dedup(Categorias(ps))
  }

  /** The category list repeats nothing, lists first occurrences in order, and holds every product's category. */
  lemma CategoriasPublicasSpec(ps: seq<Product>)
    ensures NoDup(CategoriasPublicas(ps))
    ensures forall c :: c in CategoriasPublicas(ps) <==> c in Categorias(ps)
    ensures forall i :: 0 <= i < |ps| ==> ps[i].categoria in CategoriasPublicas(ps)
    ensures forall i, j :: 0 <= i < j < |CategoriasPublicas(ps)| ==>
      IndexOf(Categorias(ps), CategoriasPublicas(ps)[i]) < IndexOf(Categorias(ps), CategoriasPublicas(ps)[j])
  {
    DedupSpec(Categorias(ps));
    assert forall i :: 0 <= i < |ps| ==> Categorias(ps)[i] in Categorias(ps);
  }

  // ---------------------------------------------------------------- the page state

  /** The module state of catalogo.js. */
  class Tienda {
    var productos: seq<Product>
    var carrito: seq<Linea>

    constructor ()
      ensures productos == [] && carrito == []
    {
      productos := [];
      carrito := [];
    }

    /** `cargarProductos`: a hard error or a parse failure leaves the list as it was. */
    method CargarProductos(d: Descarga)
      modifies this`productos
      ensures productos == CargaPublica(old(productos), d)
    {
      if ErrorGrave(d) {
        return;
      }
      if d.data.Some? {
        var parsed := Parsear(d.data.value);
        if parsed.None? {
          return;
        }
        productos := parsed.value;
      } else {
        productos := [];
      }
    }

    /**
      `agregarCarrito`: `ok` is false exactly when the call throws (no line and
      no product with that id).
    */
    method AgregarCarrito(id: int, cant: int) returns (ok: bool)
      modifies this`carrito
      ensures carrito == Agregar(old(carrito), productos, id, cant)
      ensures old(LineasUnicas(carrito)) ==> LineasUnicas(carrito)
      ensures ok <==> BuscarLinea(old(carrito), id) != -1 || Buscar(productos, id).Some?
    {
      if LineasUnicas(carrito) {
        AgregarConservaUnicas(carrito, productos, id, cant);
      }
      var p := Buscar(productos, id);
      var k := BuscarLinea(carrito, id);
      if k != -1 {
        carrito := carrito[k := carrito[k].(cantidad := carrito[k].cantidad + cant)];
        ok := true;
      } else if p.Some? {
        carrito := carrito + [Linea(id, p.value.nombre, p.value.precio, cant)];
        ok := true;
      } else {
        ok := false;
      }
    }

    /** `actualizarCantidad`. */
    method ActualizarCantidad(id: int, nuevaCantidad: int)
      modifies this`carrito
      ensures carrito == Actualizar(old(carrito), id, nuevaCantidad)
      ensures old(LineasUnicas(carrito)) ==> LineasUnicas(carrito)
    {
      ActualizarSpec(carrito, id, nuevaCantidad);
      var k := BuscarLinea(carrito, id);
      if k != -1 {
        carrito := carrito[k := carrito[k].(cantidad := nuevaCantidad)];
      }
    }

    /** `eliminarDelCarrito`. */
    method EliminarDelCarrito(id: int)
      modifies this`carrito
      ensures carrito == Quitar(old(carrito), id)
      ensures old(LineasUnicas(carrito)) ==> LineasUnicas(carrito)
    {
      QuitarSpec(carrito, id);
      carrito := Filter(OtroId(id), carrito);
    }

    /** `limpiarCarrito`. */
    method LimpiarCarrito()
      modifies this`carrito
      ensures carrito == [] && Suma(carrito) == 0
    {
      carrito := [];
    }

    /** The `total` that `mostrarCarrito` accumulates line by line. */
    method Total() returns (total: int)
      ensures total == Suma(carrito)
      ensures total == Reducir(0, carrito)
    {
      total := 0;
      var i := 0;
      while i < |carrito|
        invariant 0 <= i <= |carrito|
        invariant total == Suma(carrito[..i])
      {
        assert carrito[..i + 1][..i] == carrito[..i];
        total := total + carrito[i].cantidad * carrito[i].precio;
        i := i + 1;
      }
      assert carrito[..i] == carrito;
      ReducirEsSuma(0, carrito);
    }
  }

  /** The worked example: adding 2 and then 3 of the mug gives one line of 5 and a total of 250. */
  lemma EjemploCarrito()
    ensures Agregar(Agregar([], [Product(1, "Taza", "Hogar", 50, "")], 1, 2), [Product(1, "Taza", "Hogar", 50, "")], 1, 3)
      == [Linea(1, "Taza", 50, 5)]
    ensures Suma([Linea(1, "Taza", 50, 5)]) == 250
  {
    AgregarDosVeces([], [Product(1, "Taza", "Hogar", 50, "")], 1, 2, 3);
    assert Buscar([Product(1, "Taza", "Hogar", 50, "")], 1) == Some(Product(1, "Taza", "Hogar", 50, ""));
  }
}
