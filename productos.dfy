/**
  The product record of `productos.json`, the outcome of downloading that
  document, and the two ways the pages turn a download into the in-memory
  product list.
*/
module Productos {
  import opened Wrappers
  import opened Seqs

  /**
    One catalogue entry. A missing `categoria` is modelled as the empty string;
    `precio` is an integer.
  */
  datatype Product = Product(id: int, nombre: string, categoria: string, precio: int, imagen: string)

  /** What `data.text()` holds once parsed: an empty text, a JSON list, or text `JSON.parse` rejects. */
  datatype Contenido = Vacio | Json(items: seq<Product>) | Invalido

  /** The `{ data, error }` pair a storage download resolves to; `error` carries its HTTP status. */
  datatype Descarga = Descarga(error: Option<int>, data: Option<Contenido>)

  /** The status the storage client reports for a document that is not there. */
  const NoEncontrado: int := 406

  function Ids(ps: seq<Product>): (r: seq<int>)
    ensures |r| == |ps|
    ensures forall i :: 0 <= i < |ps| ==> r[i] == ps[i].id
  {
    seq(|ps|, i requires 0 <= i < |ps| => ps[i].id)
  }

  function Categorias(ps: seq<Product>): (r: seq<string>)
    ensures |r| == |ps|
    ensures forall i :: 0 <= i < |ps| ==> r[i] == ps[i].categoria
  {
    seq(|ps|, i requires 0 <= i < |ps| => ps[i].categoria)
  }

  /** The callback `p => p.categoria === c`. */
  function DeCategoria(c: string): Product -> bool
  {
    (p: Product) => p.categoria == c
  }

  /** `ps.findIndex(x => x.id === id)`. */
  function IndiceDe(ps: seq<Product>, id: int): (k: int)
    ensures -1 <= k < |ps|
    ensures k == -1 <==> forall i :: 0 <= i < |ps| ==> ps[i].id != id
    ensures 0 <= k ==> ps[k].id == id && forall j :: 0 <= j < k ==> ps[j].id != id
  {
    IndexOf(Ids(ps), id)
  }

  /** `ps.find(x => x.id === id)`. */
  function Buscar(ps: seq<Product>, id: int): (r: Option<Product>)
    ensures r.None? <==> forall i :: 0 <= i < |ps| ==> ps[i].id != id
    ensures r.Some? ==> r.value == ps[IndiceDe(ps, id)]
  {
    var k := IndiceDe(ps, id);
    if k == -1 then None else Some(ps[k])
  }

  /** The list `JSON.parse(text || "[]")` yields, or None when it throws. */
  function Parsear(c: Contenido): (r: Option<seq<Product>>)
    ensures c.Vacio? ==> r == Some([])
    ensures c.Json? ==> r == Some(c.items)
    ensures c.Invalido? ==> r.None?
  {
    match c
    case Vacio => Some([])
    case Json(items) => Some(items)
    case Invalido => None
  }

  /** The download failed for a reason other than a missing document. */
  predicate ErrorGrave(d: Descarga)
  {
    d.error.Some? && d.error.value != NoEncontrado
  }

  /**
    `cargarProductos` of the public pages: a hard error returns early and a
    parse failure escapes the handler, both leaving `actual` in place; missing
    data means an empty catalogue.
  */
  function CargaPublica(actual: seq<Product>, d: Descarga): (r: seq<Product>)
    ensures ErrorGrave(d) ==> r == actual
    ensures !ErrorGrave(d) && d.data.None? ==> r == []
    ensures !ErrorGrave(d) && d.data == Some(Vacio) ==> r == []
    ensures !ErrorGrave(d) && d.data.Some? && d.data.value.Json? ==> r == d.data.value.items
    ensures d.data == Some(Invalido) ==> r == actual
  {
    if ErrorGrave(d) then actual
    else match d.data
      case None => []
      case Some(c) =>
        match Parsear(c)
        case Some(ps) => ps
        case None => actual
  }

  /**
    `cargarProductos` of the admin panel: every failure (hard error or parse
    failure) is caught and empties the list.
  */
  function CargaAdmin(d: Descarga): (r: seq<Product>)
    ensures !ErrorGrave(d) && d.data.Some? && d.data.value.Json? ==> r == d.data.value.items
    ensures ErrorGrave(d) || d.data.None? || d.data == Some(Vacio) || d.data == Some(Invalido) ==> r == []
  {
    if ErrorGrave(d) then []
    else match d.data
      case None => []
      case Some(c) =>
        match Parsear(c)
        case Some(ps) => ps
        case None => []
  }

  /** On a download that succeeds and parses, the admin panel and the public pages load the same list. */
  lemma CargasCoinciden(actual: seq<Product>, d: Descarga)
    requires !ErrorGrave(d) && d.data != Some(Invalido)
    ensures CargaPublica(actual, d) == CargaAdmin(d)
    ensures CargaPublica(actual, d) == CargaPublica([], d)
  {
  }
}
