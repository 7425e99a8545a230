# Storefront product catalogue — a Dafny model

The storefront keeps its whole catalogue in one JSON document, `productos.json`,
in Supabase storage. Three browser scripts work on it:

- `public/js/admin.js` is the password-protected panel. It loads the catalogue,
  filters it by category and free text, and builds the sorted category list.
  It loads a product into the form for editing, and it deletes products. It saves by downloading the stored document
  again, merging the in-memory list into it by product id, and uploading the
  result. It also sanitises the names of image files before upload.
- `public/js/catalogo.js` is the public product page. It loads the catalogue
  and filters it by category and by name. It also keeps a shopping cart of
  lines (id, name, price, quantity) with add, update, remove, clear and total.
- `public/js/inicio.js` is the home page. It shows one card per distinct
  category, with the number of products in it and the image of its first
  product.

Layout of the model:

| file | module | contents |
|---|---|---|
| `wrappers.dfy` | `Wrappers` | `Option` |
| `seqs.dfy` | `Seqs` | `Filter`, subsequence, `NoDup`, `IndexOf` (`findIndex`/`indexOf`), `Dedup` (`[...new Set(xs)]`) and their lemmas |
| `texto.dfy` | `Texto` | `trim`, `toLowerCase`, `includes`, `${n}` for integers, and the default string `sort()` |
| `productos.dfy` | `Productos` | the product record, the download outcome, `find`/`findIndex` by id, and the two load behaviours |
| `admin.dfy` | `Admin` | the save-time merge, deletion, the admin filter, the category list, the file-name sanitiser, and the class `Panel` holding `productos` and `editandoId` |
| `catalogo.dfy` | `Catalogo` | cart lines and their operations, the public filter, the public category list, and the class `Tienda` holding `productos` and `carrito` |
| `inicio.dfy` | `Inicio` | the category cards of the home page |

Module-level `let` variables that handlers reassign are fields of a class:
`Panel` for the admin panel and `Tienda` for the public page. The handlers are
methods that state the new value of each field as a function of the old state
and of their inputs. The loops the source runs are `while` loops with
invariants: the merge in `guardarProductos` and the total in `mostrarCarrito`.
The pure callbacks (`filter`, `find`, `map`, `new Set`, `sort`) are functions,
and the properties the pages rely on are lemmas about those functions.

Storage calls are not executed. Each method takes their outcome as a parameter:

- a `Descarga` value: an optional HTTP status and optional parsed content;
- for a save, the downloaded content and a flag saying whether the upload
  succeeded;
- for a delete, the answer to `confirm()`.

Three behaviours of the code are easy to miss, and the model follows the code:

- The admin load empties the list on any failure, but the public pages leave
  their old list in place.
- The save has no earlier snapshot to compare against. The merge only
  overwrites and appends, so a product deleted in the panel is still in the
  stored document and comes back on the next load (`Admin.EliminadoReaparece`).
- No handler creates or updates a product from the form. The form element is
  looked up at `admin.js:12` and nothing uses it.

## Model

| member | source | states |
|---|---|---|
| `Productos.IndiceDe` | public/js/admin.js:152 | the index is -1 exactly when no product has the id; otherwise it is the first product with that id |
| `Productos.Buscar` | public/js/admin.js:252 | `find` by id gives nothing exactly when no product has the id, and otherwise gives the product at the first matching index |
| `Productos.Parsear` | public/js/admin.js:121-122 | an empty text parses as the empty list (`text \|\| "[]"`), a JSON list as its items, and anything else fails |
| `Productos.CargaPublica` | public/js/catalogo.js:18-38 | a hard error (any status but 406) or a parse failure leaves the current list; no data gives the empty list; parsed data replaces the list (inicio.js:11-30 behaves the same) |
| `Productos.CargaAdmin` | public/js/admin.js:111-134 | parsed data replaces the list; a hard error, no data, an empty text and a parse failure all end with the empty list |
| `Productos.CargasCoinciden` | public/js/admin.js:118-125 | when the download succeeds and parses, the panel and the public pages load the same list, whatever they held before |
| `Admin.FusionarIds` | public/js/admin.js:151-158 | the ids of the merged list are the stored ids in their order, followed by each new local id once, in the order of first local occurrence |
| `Admin.FusionarConserva` | public/js/admin.js:151-158 | a stored product whose id is not in the local list stays at its position, unchanged |
| `Admin.FusionarUltimoGana` | public/js/admin.js:151-158 | when several local products share an id, the merged list holds the last of them at that id's index |
| `Admin.FusionarSpec` | public/js/admin.js:151-158 | the merged length is the stored length plus the number of new ids; stored positions keep their ids; products only stored are unchanged; the appended ids are exactly the local ids not stored, each once |
| `Admin.FusionarSinRepetidos` | public/js/admin.js:151-158 | when the stored ids are distinct, the merged ids are distinct |
| `Admin.FusionarContieneLocales` | public/js/admin.js:151-158 | every local product's id is in the merged list |
| `Admin.FusionarSinRemoto` | public/js/admin.js:144-158 | with no stored document, the merge keeps one product per local id in order of first occurrence, so its ids are distinct |
| `Admin.EliminarSpec` | public/js/admin.js:264 | after deletion no product has the id; a product remains exactly when it was there with another id, and with as many copies as before; the order is kept; nothing changes when the id is absent |
| `Admin.EliminadoReaparece` | public/js/admin.js:262-267 | a product deleted locally but still stored is written back unchanged at its stored position by the merge that follows |
| `Admin.FiltrarAdminSpec` | public/js/admin.js:237-247 | the result keeps the catalogue order; a product is in it exactly when it is in the catalogue, is in the selected category (or the category is `all`) and its name, category and price text contains the query; a matching product keeps all its copies |
| `Admin.FiltrarAdminSinBusqueda` | public/js/admin.js:243 | a query that trims to empty filters by category only; with `all` it keeps the whole list |
| `Admin.FiltrarAdminCategoriaAjena` | public/js/admin.js:241-242 | selecting a category no product has gives the empty result |
| `Admin.EjemploTaza` | public/js/admin.js:244-245 | the query `taz` finds the product `Taza` under `all` and nothing under another category |
| `Admin.CategoriasAdminSpec` | public/js/admin.js:232 | the category list is sorted and has no repeats; it holds exactly the non-empty categories of the products |
| `Admin.SanitizarSpec` | public/js/admin.js:49-54 | the length drops by exactly the removed combining marks; every unit of the output is in `[a-zA-Z0-9._-]`; an allowed name is unchanged; in a name without marks each allowed unit stays in place and each other unit becomes `_`; sanitising twice equals sanitising once |
| `Admin.SanitizarConcat` | public/js/admin.js:49-54 | the sanitiser works unit by unit: on a concatenation it is the concatenation of its results |
| `Admin.Remoto` | public/js/admin.js:139-148 | missing data at save time counts as an empty stored list; present data is parsed |
| `Admin.Panel.CargarProductos` | public/js/admin.js:111-134 | the list after loading is the admin load of the download |
| `Admin.Panel.GuardarProductos` | public/js/admin.js:137-174 | the uploaded list is the merge of the stored list into the local list; a parse failure uploads nothing; the local list becomes the uploaded list only when the upload succeeds |
| `Admin.Panel.EliminarProducto` | public/js/admin.js:262-268 | a declined confirmation changes nothing; otherwise the list becomes the one without the id and is then saved as `guardarProductos` does |
| `Admin.Panel.EditarProducto` | public/js/admin.js:251-259 | the form receives the product with the id, if any; the product being edited changes only when the product is found |
| `Catalogo.BuscarLinea` | public/js/catalogo.js:98 | the index is -1 exactly when no cart line has the id; otherwise it is the first line with that id |
| `Catalogo.AgregarExistente` | public/js/catalogo.js:99 | adding to an id already in the cart adds the quantity to that line and changes nothing else |
| `Catalogo.AgregarNuevo` | public/js/catalogo.js:96-100 | a new id appends a line copied from the product's name and price; an unknown product leaves the cart unchanged |
| `Catalogo.AgregarDosVeces` | public/js/catalogo.js:95-102 | adding the same id twice equals adding the sum of the two quantities once |
| `Catalogo.AgregarConservaUnicas` | public/js/catalogo.js:95-102 | when each id has at most one line, it still has at most one after adding |
| `Catalogo.AgregarSuma` | public/js/catalogo.js:95-102 | adding to an existing line raises the total by quantity times that line's price; a new line raises it by quantity times the product's price; an unknown product leaves the total |
| `Catalogo.ActualizarSpec` | public/js/catalogo.js:136-140 | only the first line with the id gets the new quantity; the ids, the length and the other lines are kept; an absent id changes nothing |
| `Catalogo.QuitarSpec` | public/js/catalogo.js:131-134 | a line remains exactly when it was there with another id, with as many copies as before; the order is kept; an absent id changes nothing; lines stay unique |
| `Catalogo.QuitarSuma` | public/js/catalogo.js:131-134 | the old total is the new total plus the subtotals of the removed lines |
| `Catalogo.SumaConcat` | public/js/catalogo.js:106-119 | the total of two carts joined is the sum of their totals |
| `Catalogo.ReducirEsSuma` | public/js/catalogo.js:152 | the `reduce` of the WhatsApp message gives the same total as the `forEach` of the cart view |
| `Catalogo.SumaCambiar` | public/js/catalogo.js:138 | replacing one line changes the total by the difference of the two subtotals |
| `Catalogo.EjemploCarrito` | public/js/catalogo.js:95-119 | adding 2 then 3 of a product priced 50 makes one line of 5, with total 250 |
| `Catalogo.FiltrarPublicoUnaPasada` | public/js/catalogo.js:57-65 | the category `filter` followed by the name `filter` selects the same list as one `filter` with both tests |
| `Catalogo.FiltrarPublicoSpec` | public/js/catalogo.js:52-65 | the result is one pass of the combined test; it keeps the catalogue order; a product is in it exactly when it is in the catalogue, in the selected category (unless `Todas`) and, when the lower-cased trimmed query is not empty, its lower-cased name contains it; a matching product keeps all its copies |
| `Catalogo.FiltrarPublicoTodo` | public/js/catalogo.js:160-165 | after the filters are cleared (`Todas`, empty search) every product is shown |
| `Catalogo.CategoriasPublicasSpec` | public/js/catalogo.js:42 | the categories are distinct; they are exactly those of the products; they appear in order of first occurrence |
| `Catalogo.Tienda.CargarProductos` | public/js/catalogo.js:18-38 | the list after loading is the public load of the download and the old list |
| `Catalogo.Tienda.AgregarCarrito` | public/js/catalogo.js:95-102 | the cart becomes the result of adding the quantity; the call succeeds exactly when the line exists or the product is found; a cart with one line per id keeps that property |
| `Catalogo.Tienda.ActualizarCantidad` | public/js/catalogo.js:136-140 | the cart becomes the one with the first matching line's quantity replaced; a cart with one line per id keeps that property |
| `Catalogo.Tienda.EliminarDelCarrito` | public/js/catalogo.js:131-134 | the cart becomes the one without the lines of that id; a cart with one line per id keeps that property |
| `Catalogo.Tienda.LimpiarCarrito` | public/js/catalogo.js:142-145 | the cart is empty and its total is zero |
| `Catalogo.Tienda.Total` | public/js/catalogo.js:106-119 | the loop total is the sum of the line subtotals, which equals the `reduce` total |
| `Inicio.ResumenCategorias` | public/js/inicio.js:37-39 | the cards show each category once, exactly the categories the products carry, in order of first occurrence |
| `Inicio.ResumenImagen` | public/js/inicio.js:43-44 | each card's image is that of the first product of its category, so the placeholder is never shown |
| `Inicio.ResumenCuentas` | public/js/inicio.js:52 | each card counts the products of its category and this count is at least one; the counts of all cards add up to the number of products |
| `Inicio.SumaCuentasTotal` | public/js/inicio.js:37-52 | over distinct categories that cover every product, the card counts add up to the number of products |
| `Texto.QuitarInicio` | public/js/admin.js:238 | the leading part (the part `trim` removes at the front) is all white space, and the rest starts with a non-space |
| `Texto.QuitarFinal` | public/js/admin.js:238 | the trailing part (the part `trim` removes at the end) is all white space, and the rest ends with a non-space |
| `Texto.RecortarMinusculas` | public/js/catalogo.js:55 | trimming then lower-casing (the admin query) equals lower-casing then trimming (the public query) |
| `Texto.OrdenarSpec` | public/js/admin.js:232 | `sort()` yields an ordered permutation and keeps distinct strings distinct |
| `Texto.LexTransitiva` | public/js/admin.js:232 | the string order `sort()` uses is transitive (with `LexTotal` and `LexAntisimetrica`, a total order) |
| `Seqs.DedupSpec` | public/js/inicio.js:37 | `[...new Set(xs)]` has no repeats, holds exactly the elements of `xs`, and keeps them in order of first occurrence |
| `Seqs.IndexOf` | public/js/inicio.js:43 | the index is -1 exactly when the element is absent; otherwise it is the first index holding it |

## Left out

- Storage I/O (download, upload, public URLs) is not executed. Its outcomes are method parameters, and `JSON.parse` is abstracted as the three-way `Contenido`.
- `subirImagen` (admin.js:57-76) is left out. It calls storage, and it prefixes `Date.now()`, a clock value, to the sanitised name. Only the sanitiser is modelled.
- `Admin.Sanitizar`: `normalize('NFD')` is not modelled. The model works on UTF-16 units that are already decomposed, and it removes combining marks U+0300..U+036F from them.
- Prices and quantities are integers. JavaScript numbers are floating point, so a fractional price is not modelled.
- `parseInt` on a quantity field is left out. The quantity is passed in as an integer, so the `NaN` it can give for a non-numeric field is not modelled.
- `Texto.MinusculaChar`: `toLowerCase` is modelled only for ASCII and Latin-1 capitals (U+00C0..U+00DE except U+00D7). Every other character is left unchanged, including Latin capitals outside Latin-1 such as U+0100, U+0152 and U+0178.
- `Texto.LexMenorIgual` compares characters. Outside the Basic Multilingual Plane, this differs from the UTF-16 unit order of `sort()`.
- A product without `categoria` is given the empty category. The admin haystack would show the word `undefined` for it; the model shows an empty string.
- The DOM rendering is left out: cards, `<option>` elements, notifications and image previews. The login check against a configured key is also left out.
- `confirm()` is a boolean parameter.
- `guardarProductos` reads only `data` from the download and ignores its `error` (admin.js:139). A failed download at save time therefore counts as no stored document (`Admin.Remoto`), and the upload replaces the stored catalogue with the local list alone (`Admin.FusionarSinRemoto`).
- The WhatsApp message text is left out; its total is modelled (`Catalogo.ReducirEsSuma`).
- Event-listener wiring is left out, and so is any interleaving of concurrent asynchronous handlers.
- `Admin.Panel.EliminarProducto` leaves out two steps. The reload it starts without `await` (admin.js:267) is a separate call to `CargarProductos`. The success notice it shows even when the save failed is not modelled.
- Cart lines are objects that `agregarCarrito` and `actualizarCantidad` change in place. The model replaces the line in a sequence instead, so aliasing of line objects is not modelled.
- `llenarCategorias` appends `<option>` elements and never clears them. Only the list of categories it computes is modelled.
