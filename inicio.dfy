/**
  The home page (public/js/inicio.js): one card per distinct category, in
  order of first occurrence, with the number of products in it and the image
  of its first product.
*/
module Inicio {
  import opened Seqs
  import opened Productos

  /** What a category card shows. */
  datatype Tarjeta = Tarjeta(categoria: string, imagen: string, cantidad: nat)

  /** The image a card falls back to when no product has the category. */
  const Marcador: string := "https://via.placeholder.com/300?text=Categoría"

  /** `productos.filter(p => p.categoria === categoria).length`. */
  function Cuenta(ps: seq<Product>, c: string): nat
  {
    |Filter(DeCategoria(c), ps)|
  }

  /** The image of `productos.find(p => p.categoria === categoria)`, or the placeholder. */
  function Imagen(ps: seq<Product>, c: string): string
  {
    var k := IndexOf(Categorias(ps), c);
    if k != -1 then ps[k].imagen else Marcador
  }

  /** `[...new Set(productos.map(p => p.categoria))]`. */
  function ListaCategorias(ps: seq<Product>): seq<string>
  {
    Dedup(Categorias(ps))
  }

  function Tarjetas(ps: seq<Product>, cs: seq<string>): (r: seq<Tarjeta>)
    ensures |r| == |cs|
    ensures forall i :: 0 <= i < |cs| ==> r[i] == Tarjeta(cs[i], Imagen(ps, cs[i]), Cuenta(ps, cs[i]))
  {
    seq(|cs|, i requires 0 <= i < |cs| => Tarjeta(cs[i], Imagen(ps, cs[i]), Cuenta(ps, cs[i])))
  }

  /** The cards `mostrarCategorias` renders. */
  function Resumen(ps: seq<Product>): seq<Tarjeta>
  {
    Tarjetas(ps, ListaCategorias(ps))
  }

  function SumaCuentas(ts: seq<Tarjeta>): nat
  {
    if ts == [] then 0 else ts[0].cantidad + SumaCuentas(ts[1..])
  }

  function CategoriasDe(ts: seq<Tarjeta>): (r: seq<string>)
    ensures |r| == |ts|
    ensures forall i :: 0 <= i < |ts| ==> r[i] == ts[i].categoria
  {
    seq(|ts|, i requires 0 <= i < |ts| => ts[i].categoria)
  }

  /**
    The cards list each category once, in order of first occurrence, and
    exactly the categories the products carry.
  */
  lemma ResumenCategorias(ps: seq<Product>)
    ensures CategoriasDe(Resumen(ps)) == ListaCategorias(ps)
    ensures NoDup(CategoriasDe(Resumen(ps)))
    ensures forall c :: c in CategoriasDe(Resumen(ps)) <==> exists i :: 0 <= i < |ps| && ps[i].categoria == c
    ensures forall i, j :: 0 <= i < j < |Resumen(ps)| ==>
      IndexOf(Categorias(ps), Resumen(ps)[i].categoria) < IndexOf(Categorias(ps), Resumen(ps)[j].categoria)
  {
    var cs := ListaCategorias(ps);
    assert CategoriasDe(Resumen(ps)) == cs;
    DedupSpec(Categorias(ps));
    forall c ensures c in cs <==> exists i :: 0 <= i < |ps| && ps[i].categoria == c {
      if c in Categorias(ps) {
        var i :| 0 <= i < |ps| && Categorias(ps)[i] == c;
        assert ps[i].categoria == c;
      }
      if exists i :: 0 <= i < |ps| && ps[i].categoria == c {
        var i :| 0 <= i < |ps| && ps[i].categoria == c;
        assert Categorias(ps)[i] == c;
      }
    }
  }

  /**
    Each card's image is that of the first product of its category, so the
    placeholder is never shown.
  */
  lemma ResumenImagen(ps: seq<Product>, i: int)
    requires 0 <= i < |Resumen(ps)|
    ensures var t := Resumen(ps)[i]; var k := IndexOf(Categorias(ps), t.categoria);
      && 0 <= k < |ps|
      && ps[k].categoria == t.categoria
      && (forall j :: 0 <= j < k ==> ps[j].categoria != t.categoria)
      && t.imagen == ps[k].imagen
  {
    var cs := ListaCategorias(ps);
    DedupMembership(Categorias(ps), cs[i]);
    var k := IndexOf(Categorias(ps), cs[i]);
    forall j | 0 <= j < k ensures ps[j].categoria != cs[i] {
      assert Categorias(ps)[j] == ps[j].categoria;
    }
  }

  lemma {:induction false} CuentaCons(p: Product, ps: seq<Product>, c: string)
    ensures Cuenta([p] + ps, c) == (if p.categoria == c then 1 else 0) + Cuenta(ps, c)
  {
    assert ([p] + ps)[1..] == ps;
  }

  /** How many entries of `cs` equal `c`. */
  function Veces(cs: seq<string>, c: string): nat
  {
    if cs == [] then 0 else (if cs[0] == c then 1 else 0) + Veces(cs[1..], c)
  }

  lemma {:induction false} VecesUnico(cs: seq<string>, c: string)
    requires NoDup(cs)
    ensures Veces(cs, c) == if c in cs then 1 else 0
  {
    if cs != [] {
      assert NoDup(cs[1..]) by {
        forall i, j | 0 <= i < j < |cs[1..]| ensures cs[1..][i] != cs[1..][j] {
          assert cs[1..][i] == cs[i + 1] && cs[1..][j] == cs[j + 1];
        }
      }
      VecesUnico(cs[1..], c);
      assert cs == [cs[0]] + cs[1..];
      if cs[0] == c {
        assert c !in cs[1..];
      }
    }
  }

  /** Adding a product to the front adds one to the counts of the categories equal to its own. */
  lemma {:induction false} SumaCuentasCons(p: Product, ps: seq<Product>, cs: seq<string>)
    ensures SumaCuentas(Tarjetas([p] + ps, cs)) == Veces(cs, p.categoria) + SumaCuentas(Tarjetas(ps, cs))
  {
    if cs != [] {
      SumaCuentasCons(p, ps, cs[1..]);
      CuentaCons(p, ps, cs[0]);
      assert Tarjetas([p] + ps, cs)[1..] == Tarjetas([p] + ps, cs[1..]);
      assert Tarjetas(ps, cs)[1..] == Tarjetas(ps, cs[1..]);
    }
  }

  /** Over distinct categories that cover every product, the counts add up to the number of products. */
  lemma {:induction false} SumaCuentasTotal(ps: seq<Product>, cs: seq<string>)
    requires NoDup(cs)
    requires forall i :: 0 <= i < |ps| ==> ps[i].categoria in cs
    ensures SumaCuentas(Tarjetas(ps, cs)) == |ps|
  {
    if ps == [] {
      SumaCuentasVacio(cs);
    } else {
      var p, t := ps[0], ps[1..];
      assert ps == [p] + t;
      SumaCuentasTotal(t, cs);
      SumaCuentasCons(p, t, cs);
      VecesUnico(cs, p.categoria);
    }
  }

  lemma {:induction false} SumaCuentasVacio(cs: seq<string>)
    ensures SumaCuentas(Tarjetas([], cs)) == 0
  {
    if cs != [] {
      SumaCuentasVacio(cs[1..]);
      assert Tarjetas([], cs)[1..] == Tarjetas([], cs[1..]);
    }
  }

  /** A card's category is carried by some product, so its count is positive. */
  lemma ResumenNoVacia(ps: seq<Product>, t: Tarjeta)
    requires t in Resumen(ps)
    ensures t.cantidad >= 1
  {
    var cs := ListaCategorias(ps);
    var i :| 0 <= i < |cs| && Resumen(ps)[i] == t;
    DedupMembership(Categorias(ps), cs[i]);
    var k := IndexOf(Categorias(ps), cs[i]);
    assert ps[k] in ps && ps[k].categoria == cs[i];
    FilterMembership(DeCategoria(cs[i]), ps, ps[k]);
  }

  /**
    Each card counts exactly the products of its category, and the counts of
    all cards add up to the number of products.
  */
  lemma ResumenCuentas(ps: seq<Product>)
    ensures forall t :: t in Resumen(ps) ==> t.cantidad == |Filter(DeCategoria(t.categoria), ps)|
    ensures forall t :: t in Resumen(ps) ==> t.cantidad >= 1
    ensures SumaCuentas(Resumen(ps)) == |ps|
  {
    var cs := ListaCategorias(ps);
    DedupSpec(Categorias(ps));
    forall t | t in Resumen(ps) ensures t.cantidad >= 1 {
      ResumenNoVacia(ps, t);
    }
    forall i | 0 <= i < |ps| ensures ps[i].categoria in cs {
      assert Categorias(ps)[i] == ps[i].categoria;
    }
    SumaCuentasTotal(ps, cs);
  }
}
