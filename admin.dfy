/**
  The admin panel (public/js/admin.js): the id-keyed merge that `guardarProductos`
  runs against the freshly downloaded document before uploading it, the local
  delete, the search filter, the sorted category list, and the file-name
  sanitiser used for image uploads.
*/
module Admin {
  import opened Wrappers
  import opened Seqs
  import opened Texto
  import opened Productos

  // ---------------------------------------------------------------- merge

  /** One step of the `forEach`: overwrite the first entry with `p.id`, or append `p`. */
  function FusionarUno(acc: seq<Product>, p: Product): seq<Product>
  {
    var k := IndiceDe(acc, p.id);
    if k != -1 then acc[k := p] else acc + [p]
  }

  /** `productosActuales` after the `forEach` over `local` has run, starting from `remoto`. */
  function Fusionar(remoto: seq<Product>, local: seq<Product>): seq<Product>
    decreases |local|
  {
    if local == [] then remoto
    else FusionarUno(Fusionar(remoto, local[..|local| - 1]), local[|local| - 1])
  }

  /** The merge of `local` with one more product is one more step of the merge. */
  lemma FusionarPaso(remoto: seq<Product>, local: seq<Product>, i: int)
    requires 0 <= i < |local|
    ensures Fusionar(remoto, local[..i + 1]) == FusionarUno(Fusionar(remoto, local[..i]), local[i])
  {
    assert local[..i + 1][..i] == local[..i];
  }

  function NoEsta(xs: seq<int>): int -> bool
  {
    (x: int) => x !in xs
  }

  /** The local ids the remote list lacks, each once, in local first-occurrence order. */
  function IdsNuevos(remoto: seq<Product>, local: seq<Product>): seq<int>
  {
    Dedup(Filter(NoEsta(Ids(remoto)), Ids(local)))
  }

  lemma IdsSnoc(ps: seq<Product>, p: Product)
    ensures Ids(ps + [p]) == Ids(ps) + [p.id]
  {
    assert Ids(ps + [p]) == Ids(ps) + [p.id];
  }

  lemma FusionarUnoIds(acc: seq<Product>, p: Product)
    ensures Ids(FusionarUno(acc, p)) == if p.id in Ids(acc) then Ids(acc) else Ids(acc) + [p.id]
  {
    var k := IndiceDe(acc, p.id);
    if k != -1 {
      assert p.id in Ids(acc) by { assert Ids(acc)[k] == p.id; }
      assert Ids(acc[k := p]) == Ids(acc);
    } else {
      IdsSnoc(acc, p);
    }
  }

  /** One more local product adds its id to the new ids when it is neither remote nor already new. */
  lemma IdsNuevosSnoc(remoto: seq<Product>, l: seq<Product>, p: Product)
    ensures IdsNuevos(remoto, l + [p]) ==
      if p.id in Ids(remoto) || p.id in IdsNuevos(remoto, l) then IdsNuevos(remoto, l) else IdsNuevos(remoto, l) + [p.id]
  {
    var f := NoEsta(Ids(remoto));
    IdsSnoc(l, p);
    FilterSnoc(f, Ids(l), p.id);
    var g := Filter(f, Ids(l + [p]));
    if p.id !in Ids(remoto) {
      assert f(p.id);
      assert g == Filter(f, Ids(l)) + [p.id];
      assert g[..|g| - 1] == Filter(f, Ids(l)) && g[|g| - 1] == p.id;
      assert Dedup(g) == if p.id in IdsNuevos(remoto, l) then IdsNuevos(remoto, l) else IdsNuevos(remoto, l) + [p.id];
    } else {
      assert !f(p.id);
      assert g == Filter(f, Ids(l));
    }
  }

  /** The merged id list is the remote one followed by the new local ids. */
  lemma {:induction false} FusionarIds(remoto: seq<Product>, local: seq<Product>)
    ensures Ids(Fusionar(remoto, local)) == Ids(remoto) + IdsNuevos(remoto, local)
    decreases |local|
  {
    if local == [] {
      assert Ids(local) == [];
    } else {
      var l, p := local[..|local| - 1], local[|local| - 1];
      var m := Fusionar(remoto, l);
      FusionarIds(remoto, l);
      var nv := IdsNuevos(remoto, l);
      assert local == l + [p];
      IdsNuevosSnoc(remoto, l, p);
      FusionarUnoIds(m, p);
      assert p.id in Ids(m) <==> p.id in Ids(remoto) || p.id in nv;
    }
  }

  /** Remote entries whose id is not local are kept unchanged at their position. */
  lemma {:induction false} FusionarConserva(remoto: seq<Product>, local: seq<Product>, k: int)
    requires 0 <= k < |remoto|
    requires remoto[k].id !in Ids(local)
    ensures k < |Fusionar(remoto, local)| && Fusionar(remoto, local)[k] == remoto[k]
    decreases |local|
  {
    if local != [] {
      var l, p := local[..|local| - 1], local[|local| - 1];
      assert local == l + [p];
      IdsSnoc(l, p);
      FusionarConserva(remoto, l, k);
    }
  }

  /**
    For every local product that is the last one carrying its id, the first
    merged entry with that id is that product: the last local edit wins.
  */
  lemma {:induction false} FusionarUltimoGana(remoto: seq<Product>, local: seq<Product>, i: int)
    requires 0 <= i < |local|
    requires forall j :: i < j < |local| ==> local[j].id != local[i].id
    ensures 0 <= IndiceDe(Fusionar(remoto, local), local[i].id)
    ensures Fusionar(remoto, local)[IndiceDe(Fusionar(remoto, local), local[i].id)] == local[i]
    decreases |local|
  {
    var l, p := local[..|local| - 1], local[|local| - 1];
    var m := Fusionar(remoto, l);
    var r := FusionarUno(m, p);
    FusionarUnoIds(m, p);
    if i == |local| - 1 {
      var k := IndiceDe(m, p.id);
      if k != -1 {
        assert Ids(r) == Ids(m);
        assert IndiceDe(r, p.id) == IndexOf(Ids(m), p.id);
      } else {
        assert p.id !in Ids(m);
        IndexOfAppend(Ids(m), [p.id], p.id);
      }
    } else {
      var q := local[i];
      assert l[i] == q;
      FusionarUltimoGana(remoto, l, i);
      var k := IndiceDe(m, q.id);
      assert q.id in Ids(m) by { assert Ids(m)[k] == q.id; }
      if IndiceDe(m, p.id) != -1 {
        assert Ids(r) == Ids(m);
        assert IndiceDe(r, q.id) == k;
        assert m[IndiceDe(m, p.id)].id == p.id;
      } else {
        IndexOfAppend(Ids(m), [p.id], q.id);
        assert IndiceDe(r, q.id) == k;
      }
    }
  }

  lemma FusionarForma(remoto: seq<Product>, local: seq<Product>)
    ensures |Fusionar(remoto, local)| == |remoto| + |IdsNuevos(remoto, local)|
    ensures forall k :: 0 <= k < |remoto| ==> Fusionar(remoto, local)[k].id == remoto[k].id
    ensures forall k :: |remoto| <= k < |Fusionar(remoto, local)| ==>
              Fusionar(remoto, local)[k].id == IdsNuevos(remoto, local)[k - |remoto|]
  {
    var m := Fusionar(remoto, local);
    var nv := IdsNuevos(remoto, local);
    FusionarIds(remoto, local);
    assert |m| == |remoto| + |nv| by { assert |Ids(m)| == |m|; }
    forall k | 0 <= k < |remoto|
      ensures m[k].id == remoto[k].id
    {
      assert Ids(m)[k] == Ids(remoto)[k];
    }
    forall k | |remoto| <= k < |m|
      ensures m[k].id == nv[k - |remoto|]
    {
      assert Ids(m)[k] == nv[k - |remoto|];
    }
  }

  /**
    The shape of the merge: remote ids keep their index, remote entries that
    are not local are untouched, and the new local ids follow in local
    first-occurrence order.
  */
  lemma FusionarSpec(remoto: seq<Product>, local: seq<Product>)
    ensures |Fusionar(remoto, local)| == |remoto| + |IdsNuevos(remoto, local)|
    ensures forall k :: 0 <= k < |remoto| ==> Fusionar(remoto, local)[k].id == remoto[k].id
    ensures forall k :: 0 <= k < |remoto| && remoto[k].id !in Ids(local) ==> Fusionar(remoto, local)[k] == remoto[k]
    ensures forall k :: |remoto| <= k < |Fusionar(remoto, local)| ==>
              Fusionar(remoto, local)[k].id == IdsNuevos(remoto, local)[k - |remoto|]
    ensures forall x :: x in IdsNuevos(remoto, local) <==> x in Ids(local) && x !in Ids(remoto)
    ensures NoDup(IdsNuevos(remoto, local))
  {
    FusionarForma(remoto, local);
    var m := Fusionar(remoto, local);
    var nv := IdsNuevos(remoto, local);
    forall k | 0 <= k < |remoto| && remoto[k].id !in Ids(local)
      ensures m[k] == remoto[k]
    {
      FusionarConserva(remoto, local, k);
    }
    var f := NoEsta(Ids(remoto));
    DedupSpec(Filter(f, Ids(local)));
    forall x ensures x in nv <==> x in Ids(local) && x !in Ids(remoto) {
      FilterMembership(f, Ids(local), x);
    }
  }

  /** If the downloaded list has distinct ids, so does the merged list. */
  lemma FusionarSinRepetidos(remoto: seq<Product>, local: seq<Product>)
    requires NoDup(Ids(remoto))
    ensures NoDup(Ids(Fusionar(remoto, local)))
  {
    FusionarIds(remoto, local);
    FusionarSpec(remoto, local);
    NoDupConcat(Ids(remoto), IdsNuevos(remoto, local));
  }

  /** Every local id ends up in the merged list. */
  lemma FusionarContieneLocales(remoto: seq<Product>, local: seq<Product>, i: int)
    requires 0 <= i < |local|
    ensures local[i].id in Ids(Fusionar(remoto, local))
  {
    var j := i;
    while j + 1 < |local| && exists t :: j < t < |local| && local[t].id == local[i].id
      invariant i <= j < |local| && local[j].id == local[i].id
      decreases |local| - j
    {
      var t :| j < t < |local| && local[t].id == local[i].id;
      j := t;
    }
    FusionarUltimoGana(remoto, local, j);
    var m := Fusionar(remoto, local);
    assert Ids(m)[IndiceDe(m, local[j].id)] == local[i].id;
  }

  /** With no document downloaded, the merge is the local list de-duplicated by id. */
  lemma FusionarSinRemoto(local: seq<Product>)
    ensures Ids(Fusionar([], local)) == Dedup(Ids(local))
    ensures NoDup(Ids(Fusionar([], local)))
  {
    FusionarIds([], local);
    FilterAll(NoEsta(Ids([])), Ids(local));
    DedupNoDup(Ids(local));
  }

  // ---------------------------------------------------------------- delete

  function DistintoId(id: int): Product -> bool
  {
    (p: Product) => p.id != id
  }

  /** `productos.filter(p => p.id !== id)`. */
  function Eliminar(ps: seq<Product>, id: int): seq<Product>
  {
    Filter(DistintoId(id), ps)
  }

  lemma EliminarSinId(ps: seq<Product>, id: int)
    ensures id !in Ids(Eliminar(ps, id))
    ensures id !in Ids(ps) ==> Eliminar(ps, id) == ps
  {
    var f := DistintoId(id);
    var r := Eliminar(ps, id);
    forall k | 0 <= k < |r| ensures Ids(r)[k] != id {
      FilterMembership(f, ps, r[k]);
    }
    if id !in Ids(ps) {
      forall k | 0 <= k < |ps| ensures f(ps[k]) {
        assert Ids(ps)[k] == ps[k].id;
      }
      FilterAll(f, ps);
    }
  }

  /** The delete drops every entry with the id, keeps the rest in order, and is a no-op for an absent id. */
  lemma EliminarSpec(ps: seq<Product>, id: int)
    ensures id !in Ids(Eliminar(ps, id))
    ensures forall p :: p in Eliminar(ps, id) <==> p in ps && p.id != id
    ensures IsSubseq(Eliminar(ps, id), ps)
    ensures forall p :: multiset(Eliminar(ps, id))[p] == if p.id != id then multiset(ps)[p] else 0
    ensures id !in Ids(ps) ==> Eliminar(ps, id) == ps
  {
    EliminarSinId(ps, id);
    FilterSpec(DistintoId(id), ps);
  }

  /**
    A product deleted locally comes back: `guardarProductos` keeps the
    downloaded entry with that id where it was.
  */
  lemma EliminadoReaparece(remoto: seq<Product>, local: seq<Product>, id: int, k: int)
    requires 0 <= k < |remoto| && remoto[k].id == id
    ensures k < |Fusionar(remoto, Eliminar(local, id))|
    ensures Fusionar(remoto, Eliminar(local, id))[k] == remoto[k]
  {
    EliminarSpec(local, id);
    FusionarConserva(remoto, Eliminar(local, id), k);
  }

  // ---------------------------------------------------------------- filter

  /** The lower-cased search text `${p.nombre} ${p.categoria} ${p.precio}`. */
  function Pajar(p: Product): string
  {
    Minusculas(p.nombre + " " + p.categoria + " " + EnteroATexto(p.precio))
  }

  /** The `filter` callback of `aplicarFiltros`, for the prepared query `q`. */
  predicate CoincideAdmin(p: Product, q: string, cat: string)
  {
    (cat == "all" || p.categoria == cat) && (q == "" || Contiene(Pajar(p), q))
  }

  function FiltroAdmin(q: string, cat: string): Product -> bool
  {
    (p: Product) => CoincideAdmin(p, q, cat)
  }

  function MismaCategoria(cat: string): Product -> bool
  {
    (p: Product) => cat == "all" || p.categoria == cat
  }

  /** The query `busquedaAdmin.value.trim().toLowerCase()`. */
  function Consulta(busqueda: string): string
  {
    Minusculas(Recortar(busqueda))
  }

  /** The list `aplicarFiltros` hands to `mostrarProductos`. */
  function FiltrarAdmin(ps: seq<Product>, busqueda: string, cat: string): seq<Product>
  {
    Filter(FiltroAdmin(Consulta(busqueda), cat), ps)
  }

  /** The filter keeps exactly the matching products, in order. */
  lemma FiltrarAdminSpec(ps: seq<Product>, busqueda: string, cat: string)
    ensures IsSubseq(FiltrarAdmin(ps, busqueda, cat), ps)
    ensures forall p :: p in FiltrarAdmin(ps, busqueda, cat) <==> p in ps && CoincideAdmin(p, Consulta(busqueda), cat)
    ensures forall p :: p in FiltrarAdmin(ps, busqueda, cat) ==> cat == "all" || p.categoria == cat
    ensures forall p :: multiset(FiltrarAdmin(ps, busqueda, cat))[p] ==
                        if CoincideAdmin(p, Consulta(busqueda), cat) then multiset(ps)[p] else 0
  {
    var q := Consulta(busqueda);
    var f := FiltroAdmin(q, cat);
    FilterSpec(f, ps);
  }

  /** With a blank query the filter is the category filter alone; with "all" as well, it is the whole list. */
  lemma FiltrarAdminSinBusqueda(ps: seq<Product>, busqueda: string, cat: string)
    requires Consulta(busqueda) == ""
    ensures FiltrarAdmin(ps, busqueda, cat) == Filter(MismaCategoria(cat), ps)
    ensures cat == "all" ==> FiltrarAdmin(ps, busqueda, cat) == ps
  {
    FilterSame(FiltroAdmin(Consulta(busqueda), cat), MismaCategoria(cat), ps);
    if cat == "all" {
      FilterAll(MismaCategoria(cat), ps);
    }
  }

  /** A category no product carries gives nothing, whatever the query. */
  lemma FiltrarAdminCategoriaAjena(ps: seq<Product>, busqueda: string, cat: string)
    requires cat != "all" && cat !in Categorias(ps)
    ensures FiltrarAdmin(ps, busqueda, cat) == []
  {
    var f := FiltroAdmin(Consulta(busqueda), cat);
    forall i | 0 <= i < |ps| ensures !f(ps[i]) {
      assert Categorias(ps)[i] == ps[i].categoria;
    }
    FilterNone(f, ps);
  }

  // ---------------------------------------------------------------- categories

  function NoVacia(c: string): bool
  {
    c != ""
  }

  /** `Array.from(new Set(productos.map(p => p.categoria))).filter(Boolean).sort()`. */
  function CategoriasAdmin(ps: seq<Product>): seq<string>
  {
    Ordenar(Filter(NoVacia, Dedup(Categorias(ps))))
  }

  /** The category list is sorted, repeats nothing, and is exactly the non-empty categories present. */
  lemma CategoriasAdminSpec(ps: seq<Product>)
    ensures Ordenada(CategoriasAdmin(ps))
    ensures NoDup(CategoriasAdmin(ps))
    ensures forall c :: c in CategoriasAdmin(ps) <==> c != "" && c in Categorias(ps)
  {
    var d := Dedup(Categorias(ps));
    var f := Filter(NoVacia, d);
    DedupSpec(Categorias(ps));
    FilterNoDup(NoVacia, d);
    OrdenarSpec(f);
    forall c ensures c in CategoriasAdmin(ps) <==> c != "" && c in Categorias(ps) {
      FilterMembership(NoVacia, d, c);
      assert c in CategoriasAdmin(ps) <==> c in multiset(Ordenar(f));
    }
  }

  // ---------------------------------------------------------------- file names

  /** A UTF-16 code unit: the regular expressions of `sanitizeFileName` work unit by unit. */
  newtype Unidad = x: int | 0 <= x < 0x1_0000

  /** The combining marks U+0300..U+036F that NFD splits off accented letters. */
  predicate EsMarca(u: Unidad)
  {
    0x300 <= u <= 0x36F
  }

  function SinMarca(u: Unidad): bool
  {
    !EsMarca(u)
  }

  /** `[a-zA-Z0-9._-]`. */
  predicate Permitida(u: Unidad)
  {
    (0x61 <= u <= 0x7A) || (0x41 <= u <= 0x5A) || (0x30 <= u <= 0x39) || u == 0x2E || u == 0x5F || u == 0x2D
  }

  const Subrayado: Unidad := 0x5F

  function Reemplazar(s: seq<Unidad>): (r: seq<Unidad>)
    ensures |r| == |s|
  {
    seq(|s|, i requires 0 <= i < |s| => if Permitida(s[i]) then s[i] else Subrayado)
  }

  /** `sanitizeFileName` on an already NFD-normalised name. */
  function Sanitizar(s: seq<Unidad>): seq<Unidad>
  {
    Reemplazar(Filter(SinMarca, s))
  }

  lemma {:induction false} FilterSinMarcaPermitidas(s: seq<Unidad>)
    requires forall i :: 0 <= i < |s| ==> Permitida(s[i])
    ensures Filter(SinMarca, s) == s
  {
    FilterAll(SinMarca, s);
  }

  /**
    The sanitiser drops the combining marks, replaces every other unit outside
    `[A-Za-z0-9._-]` one for one by `_`, keeps the allowed units, and is idempotent.
  */
  lemma SanitizarSpec(s: seq<Unidad>)
    ensures |Sanitizar(s)| == |Filter(SinMarca, s)|
    ensures forall i :: 0 <= i < |Sanitizar(s)| ==> Permitida(Sanitizar(s)[i])
    ensures (forall i :: 0 <= i < |s| ==> Permitida(s[i])) ==> Sanitizar(s) == s
    ensures (forall i :: 0 <= i < |s| ==> !EsMarca(s[i])) ==>
              |Sanitizar(s)| == |s| && forall i :: 0 <= i < |s| && Permitida(s[i]) ==> Sanitizar(s)[i] == s[i]
    ensures (forall i :: 0 <= i < |s| ==> !EsMarca(s[i])) ==>
              |Sanitizar(s)| == |s| && forall i :: 0 <= i < |s| && !Permitida(s[i]) ==> Sanitizar(s)[i] == Subrayado
    ensures Sanitizar(Sanitizar(s)) == Sanitizar(s)
  {
    var r := Sanitizar(s);
    if forall i :: 0 <= i < |s| ==> Permitida(s[i]) {
      FilterSinMarcaPermitidas(s);
    }
    if forall i :: 0 <= i < |s| ==> !EsMarca(s[i]) {
      FilterAll(SinMarca, s);
    }
    FilterSinMarcaPermitidas(r);
  }

  /** The sanitiser works unit by unit: it distributes over concatenation. */
  lemma SanitizarConcat(a: seq<Unidad>, b: seq<Unidad>)
    ensures Sanitizar(a + b) == Sanitizar(a) + Sanitizar(b)
  {
    FilterConcat(SinMarca, a, b);
    var fa, fb := Filter(SinMarca, a), Filter(SinMarca, b);
    assert Reemplazar(fa + fb) == Reemplazar(fa) + Reemplazar(fb);
  }

  // ---------------------------------------------------------------- the panel

  /** The document `guardarProductos` starts its merge from: `[]` without data, None when parsing throws. */
  function Remoto(data: Option<Contenido>): (r: Option<seq<Product>>)
    ensures data.None? ==> r == Some([])
    ensures data.Some? ==> r == Parsear(data.value)
  {
    match data
    case None => Some([])
    case Some(c) => Parsear(c)
  }

  /** The module state of admin.js. */
  class Panel {
    var productos: seq<Product>
    var editandoId: Option<int>

    constructor ()
      ensures productos == [] && editandoId == None
    {
      productos := [];
      editandoId := None;
    }

    /** `cargarProductos`: the list becomes what the download yields, or empty on any failure. */
    method CargarProductos(d: Descarga)
      modifies this`productos
      ensures productos == CargaAdmin(d)
    {
      if ErrorGrave(d) {
        productos := [];
        return;
      }
      match d.data
      case None =>
        productos := [];
      case Some(c) =>
        var parsed := Parsear(c);
        if parsed.Some? {
          productos := parsed.value;
        } else {
          productos := [];
        }
    }

    /**
      `guardarProductos`: merge the local list into the downloaded one, upload
      the result, and adopt it only when the upload succeeded. `enviado` is the
      document handed to the upload (None when parsing the download threw).
    */
    method GuardarProductos(data: Option<Contenido>, subidaOk: bool) returns (enviado: Option<seq<Product>>)
      modifies this`productos
      ensures enviado == if Remoto(data).Some? then Some(Fusionar(Remoto(data).value, old(productos))) else None
      ensures productos == if enviado.Some? && subidaOk then enviado.value else old(productos)
    {
      var actuales: seq<Product> := [];
      if data.Some? {
        var parsed := Parsear(data.value);
        if parsed.None? {
          return None;
        }
        actuales := parsed.value;
      }
      ghost var remoto := actuales;
      assert Remoto(data) == Some(remoto);
      var local := productos;
      var i := 0;
      while i < |local|
        invariant 0 <= i <= |local|
        invariant productos == local == old(productos)
        invariant actuales == Fusionar(remoto, local[..i])
      {
        var p := local[i];
        FusionarPaso(remoto, local, i);
        ghost var antes := actuales;
        var idx := IndiceDe(actuales, p.id);
        if idx != -1 {
          actuales := actuales[idx := p];
        } else {
          actuales := actuales + [p];
        }
        assert actuales == FusionarUno(antes, p);
        i := i + 1;
      }
      assert local[..i] == local;
      assert actuales == Fusionar(Remoto(data).value, old(productos));
      enviado := Some(actuales);
      if subidaOk {
        productos := actuales;
      }
    }

    /**
      `eliminarProducto` up to its awaited save: after confirmation, drop the id
      locally and save. The reload it starts without awaiting is a separate
      `CargarProductos` call.
    */
    method EliminarProducto(id: int, confirmado: bool, data: Option<Contenido>, subidaOk: bool)
      returns (enviado: Option<seq<Product>>)
      modifies this`productos
      ensures !confirmado ==> enviado == None && productos == old(productos)
      ensures confirmado ==>
                enviado == (if Remoto(data).Some? then Some(Fusionar(Remoto(data).value, Eliminar(old(productos), id))) else None)
      ensures confirmado ==>
                productos == if enviado.Some? && subidaOk then enviado.value else Eliminar(old(productos), id)
    {
      if !confirmado {
        return None;
      }
      productos := Eliminar(productos, id);
      enviado := GuardarProductos(data, subidaOk);
    }

    /** `editarProducto`: remember the id being edited when the product exists, and return it for the form. */
    method EditarProducto(id: int) returns (form: Option<Product>)
      modifies this`editandoId
      ensures form == Buscar(productos, id)
      ensures editandoId == if form.Some? then Some(id) else old(editandoId)
    {
      form := Buscar(productos, id);
      if form.Some? {
        editandoId := Some(id);
      }
    }
  }

  /** The mug of the worked example. */
  const Taza: Product := Product(1, "Taza", "Hogar", 50, "")

  lemma ConsultaTaz()
    ensures Consulta("taz") == "taz"
  {
    assert QuitarInicio("taz") == "taz";
    assert QuitarFinal("taz") == "taz";
    assert Minusculas("taz") == "taz";
  }

  lemma TazaCoincide()
    ensures CoincideAdmin(Taza, "taz", "all")
  {
    var h := Pajar(Taza);
    var raw := Taza.nombre + " " + Taza.categoria + " " + EnteroATexto(Taza.precio);
    assert raw[0] == 'T' && raw[1] == 'a' && raw[2] == 'z';
    assert h[0] == 't' && h[1] == 'a' && h[2] == 'z';
    assert "taz" <= h[0..];
  }

  /** The worked example: a search for "taz" finds the mug under "all" and nothing under another category. */
  lemma EjemploTaza()
    ensures FiltrarAdmin([Taza], "taz", "all") == [Taza]
    ensures FiltrarAdmin([Taza], "taz", "Cocina") == []
  {
    ConsultaTaz();
    TazaCoincide();
    FilterAll(FiltroAdmin("taz", "all"), [Taza]);
    FiltrarAdminCategoriaAjena([Taza], "taz", "Cocina");
  }
}
