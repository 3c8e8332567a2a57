# lucy_frontt admin console, modelled in Dafny

lucy_frontt is a React front end for a catalogue of medical supplies. It has
administration screens for brands (`Marcas`), categories (`Categorias`), providers
(`Proveedores`), sanitary registries (`RegistrosSanitarios`) and products, plus a home
page with a search box, a search-results page and a product detail page. The repository
holds two generations of the administration screens:

- the current screens under `src/Formularios/`, which talk to the backend;
- the older ones under `src/components/Formularios/`. The older brand, category and
  registry screens keep their lists in memory; only the older provider screen talks to
  the backend.

This project models what those screens compute: the state each handler leaves behind,
the request body it sends, the list it shows for a search term and page, and the pager
it draws. Every network answer, confirmation dialog, clock reading and file read is a
parameter of the operation that receives it. Nothing is fetched, rendered or timed.

Modules, one concept each:

- `Results`: `Option`, the backend envelope `{ok, success, data}` and the name request
  (`PUT`/`POST`) shared by the brand and category screens.
- `Text`: JavaScript's `toLowerCase`/`toUpperCase` (ASCII and Latin-1 letters, with µ and ÿ upper-casing to the Greek Μ and to Ÿ), `includes`,
  `trim` with its whitespace set, truthiness of a trimmed string, and decimal numerals.
- `Words`: `split`/`join` on one separator character, word truncation, the
  "capitalize each word" and "capitalize the first letter" idioms, the last path
  segment of a URL and the `split(',')[1]` of a data URL.
- `Lists`: `filter`, `map` over a keyed record, `find`, index removal, the
  case-insensitive search test used by every list, and the filtered and paged view.
- `Paging`: `Math.ceil(n / size)`, `Array.prototype.slice` with negative bounds, one page
  of a list, and the three pager widgets (`Paginacion`, the four-number sliding window,
  and the older "first four pages" strip).
- One module per screen: `Brands`, `Categories`, `Providers`, `Registries`,
  `ProductEdit`, `LegacyNamed` (the older brand and category screens, identical up to
  the noun), `LegacyProviders`, `LegacyRegistries`, `Home`, `Autocomplete`,
  `SearchResults`, `Carousel` and `ProductDetail`.

## Model

| member | source | states |
|---|---|---|
| Text.LowerStrIdempotent | src/Formularios/Marcas/Marcas.tsx:196 | Lower-casing a name twice gives the same as once, and the result holds no upper-case letter. |
| Text.LowerStrConcat | src/components/Formularios/Productos/FormularioEditarProducto.tsx:556-565 | Lower-casing distributes over concatenation, so a value can be lower-cased piece by piece. |
| Text.LowerCharFacts | src/components/home/Inicio.tsx:29-31 | The per-character case maps are idempotent, absorb each other and leave spaces (and only spaces) as spaces; lower-casing undoes upper-casing on every character except the micro sign µ, which comes back as the Greek μ. |
| Text.ContainsIff | src/Formularios/Marcas/Marcas.tsx:265-267 | `includes` holds exactly when the needle occurs at some position of the text. |
| Text.ContainsEmpty | src/Formularios/Marcas/Marcas.tsx:265-267 | Every text includes the empty string, so an empty search term lists everything. |
| Text.Trim | src/components/home/Inicio.tsx:44 | `trim()` gives a text no longer than the input that neither starts nor ends with whitespace. |
| Text.TrimStartShape | src/components/home/Inicio.tsx:44 | Trimming the start drops exactly a whitespace prefix and stops at the first non-whitespace character. |
| Text.TrimEndShape | src/components/home/Inicio.tsx:44 | Trimming the end drops exactly a whitespace suffix and stops at the last non-whitespace character. |
| Text.TrimAt | src/components/home/Inicio.tsx:44 | The trimmed text is a slice of the input with only whitespace around it, and it neither starts nor ends with whitespace. |
| Text.TrimShape | src/components/home/Inicio.tsx:44 | Such a slice position exists for every input. |
| Text.TrimEmptyIff | src/components/home/Inicio.tsx:44-45 | The trimmed text is empty (falsy) exactly when every character is whitespace. |
| Text.TrimIdempotent | src/components/home/Inicio.tsx:44 | Trimming twice is trimming once. |
| Text.NatToStringRoundTrip | src/DetalleProducto/Detalle.tsx:311 | A number's decimal numeral is non-empty, all digits, and reads back as the number. |
| Words.Split | src/components/resultado-busqueda/ProductCard.tsx:25 | `split` always yields at least one piece. |
| Words.SplitNoSep | src/components/resultado-busqueda/ProductCard.tsx:25 | No piece of a split contains the separator. |
| Words.JoinSplit | src/components/resultado-busqueda/ProductCard.tsx:25-27 | Joining the pieces of a split with the same separator gives back the text. |
| Words.SplitJoin | src/components/resultado-busqueda/ProductCard.tsx:25-27 | Splitting a join of separator-free pieces gives back the pieces. |
| Words.JoinPrefix | src/DetalleProducto/Detalle.tsx:114 | Joining the first k pieces gives a prefix of the joined text. |
| Words.FirstWords | src/DetalleProducto/Detalle.tsx:114-116 | The first n words are a prefix of the text, and the whole text when it has at most n words. |
| Words.FirstWordsSpec | src/DetalleProducto/Detalle.tsx:114-116 | `split(" ").slice(0, n).join(" ")` is a prefix of the text, is the whole text when it has at most n words, and has min(n, word count) words. |
| Words.FirstWordsSplit | src/DetalleProducto/Detalle.tsx:114-116 | The words of the cut text are the first min(n, count) words of the text. |
| Words.FirstWordsNested | src/DetalleProducto/Detalle.tsx:114-116 | Cutting to n words and then to m ≤ n words is cutting to m words. |
| Words.TruncateText | src/components/resultado-busqueda/ProductCard.tsx:24-30 | A text of at most the limit comes back unchanged; a longer one comes back as a prefix of it followed by "...". |
| Words.TruncateTextSpec | src/components/resultado-busqueda/ProductCard.tsx:24-30 | `truncateText` returns a text of at most the limit unchanged; a longer one becomes its first words, a prefix of it, followed by "...". |
| Words.TruncateTextIdempotent | src/components/resultado-busqueda/ProductCard.tsx:24-30 | Truncating an already truncated text changes nothing. |
| Words.MapCap | src/components/home/Inicio.tsx:29-31 | Capitalizing word by word keeps the number of words. |
| Words.TitleCase | src/components/home/Inicio.tsx:29-31 | Capitalizing keeps the number of space-separated words, and word k of the result is word k of the input with its first character upper-cased and the rest lower-cased. |
| Words.TitleCaseSpec | src/components/home/Inicio.tsx:29-31 | Capitalizing each word upper-cases exactly the characters that start the text or follow a space and lower-cases all others, keeping the length. |
| Words.TitleCaseWords | src/components/home/Inicio.tsx:29-31 | Capitalizing keeps the word count and is idempotent. |
| Words.LowerRecapped | src/Formularios/Marcas/Marcas.tsx:12-14 | The lower-cased text with every word-initial µ as μ keeps the length, and is plain lower-casing for a text without µ. |
| Words.TitleCaseLower | src/Formularios/Marcas/Marcas.tsx:12-14 | A capitalized name lower-cases back to the lower-cased original, except that a µ starting a word comes back as the Greek μ (`toUpperCase` turns it into Μ); it is blank exactly when the original is. |
| Words.TitleCaseMicroExample | src/Formularios/Marcas/Marcas.tsx:12-14 | The brand "µm" capitalizes to "Μm", which lower-cases to "μm", not back to "µm". |
| Words.SentenceCase | src/DetalleProducto/Detalle.tsx:145-146 | The result has the input's length, its first character upper-cased and every later one lower-cased. |
| Words.SentenceCaseSpec | src/DetalleProducto/Detalle.tsx:144-146 | `charAt(0).toUpperCase() + slice(1).toLowerCase()` keeps the length, upper-cases only the first character, lower-cases the rest, and is idempotent. |
| Words.LastSegment | src/components/Formularios/Productos/FormularioEditarProducto.tsx:581 | `url.split("/").pop()` holds no slash. |
| Words.LastSegmentSpec | src/components/Formularios/Productos/FormularioEditarProducto.tsx:581 | `url.split("/").pop()` is a slash-free suffix of the URL, preceded by a slash unless it is the whole URL. |
| Words.DataUrlPayload | src/Formularios/RegistrosSanitarios/RegistrosSanitarios.tsx:177 | `split(',')[1]` of "header,payload" is the payload, and a text without a comma has no second piece. |
| Lists.Filter | src/Formularios/Marcas/Marcas.tsx:265-267 | The kept entries all pass the test and are no more than the input. |
| Lists.FilterSpec | src/Formularios/Marcas/Marcas.tsx:265-267 | `filter` keeps an order-preserving subsequence holding exactly the entries that pass, each as many times as it occurs in the list. |
| Lists.FilterAppend | src/Formularios/Marcas/Marcas.tsx:265-267 | Filtering a list with one entry appended is filtering the list, plus that entry if it passes. |
| Lists.FilterKeepsAll | src/Formularios/Marcas/Marcas.tsx:256 | Filtering a list whose entries all pass returns it unchanged. |
| Lists.ReplaceWhere | src/Formularios/Marcas/Marcas.tsx:211-213 | `map(x => x.key === k ? f(x) : x)` keeps the length and changes exactly the entries with the key. |
| Lists.RemoveWhere | src/Formularios/Marcas/Marcas.tsx:256 | `filter(x => x.key !== k)` leaves no entry with the key. |
| Lists.RemoveWhereSpec | src/Formularios/Marcas/Marcas.tsx:256 | Removal by key keeps, in order, exactly the entries with other keys, each as many times as it occurs, and is the identity when the key is absent. |
| Lists.IndexOf | src/Formularios/Marcas/Marcas.tsx:240 | `find` by key reports the first entry with the key, and nothing exactly when no entry has it. |
| Lists.RemoveAt | src/components/Formularios/Productos/FormularioEditarProducto.tsx:525-534 | `filter((_, i) => i !== index)` drops the entry at the index, shifting later ones down; an index outside the list removes nothing. |
| Lists.ReplaceAbsent | src/Formularios/Marcas/Marcas.tsx:211-213 | Replacing under an absent key changes nothing. |
| Lists.AppendThenRemove | src/Formularios/Marcas/Marcas.tsx:227-256 | Appending an entry with a fresh key and then removing that key restores the list. |
| Lists.UniqueKeysKept | src/Formularios/Marcas/Marcas.tsx:211-256 | Key-preserving replacement, removal by key and appending a fresh key all keep keys unique. |
| Lists.UniqueFilter | src/Formularios/Marcas/Marcas.tsx:265-267 | A filtered list of uniquely keyed entries is uniquely keyed. |
| Lists.KeysOf | src/Formularios/Marcas/Marcas.tsx:265-267 | The keys of a list, position by position. |
| Lists.FilterKeys | src/Formularios/Marcas/Marcas.tsx:265-267 | Every key in a filtered list is a key of the original list. |
| Lists.MatchesSpec | src/Formularios/Marcas/Marcas.tsx:265-267 | The case-insensitive search holds exactly when the lower-cased term occurs in the lower-cased field, the empty term matches everything, and lower-casing either side changes nothing. |
| Lists.PageView | src/Formularios/Marcas/Marcas.tsx:269-272 | The view keeps the filtered list; its page count is `Math.ceil`, the fewest pages of `size` that hold the list (zero only for an empty one); its current page is at most `size` consecutive entries. |
| Paging.CeilDiv | src/Formularios/Marcas/Marcas.tsx:269 | `Math.ceil(n / size)` is the fewest pages of `size` that hold n items, and zero only for no items. |
| Paging.SliceBound | src/Formularios/Marcas/Marcas.tsx:272 | A `slice` bound is clamped to the length, and a non-negative one is taken as is. |
| Paging.JsSlice | src/Formularios/Marcas/Marcas.tsx:272 | `slice(start, end)` returns at most end − start entries, and for non-negative bounds the clamped sub-range. |
| Paging.PageSlice | src/Formularios/Marcas/Marcas.tsx:270-272 | Page p holds at most `size` entries, from (p−1)·size on; page 0 is empty (JavaScript reads −size as a negative bound); a page from 1 on is non-empty exactly when it is at most the page count. |
| Paging.PageSliceFrom1 | src/Formularios/Marcas/Marcas.tsx:270-272 | For pages from 1 on, the JavaScript slice is the plain sub-range and is non-empty exactly up to the page count. |
| Paging.PageSliceUpTo0 | src/Formularios/Marcas/Marcas.tsx:270-272 | For page 0 and below the JavaScript slice shows nothing on page 0 and at most `size` entries otherwise. |
| Paging.PageArith | src/Formularios/Marcas/Marcas.tsx:269-272 | A page from 1 up to the page count starts inside the list. |
| Paging.PageCoverage | src/Formularios/Marcas/Marcas.tsx:269-272 | Every entry of the list appears on exactly the page its index falls into. |
| Paging.PageBeyondLast | src/Formularios/Marcas/Marcas.tsx:269-272 | A page past the last one shows nothing. |
| Paging.Range | src/components/Paginacion/Paginacion.tsx:17-23 | The loop `for (i = a; i <= b; i++)` pushes a, a+1, …, b, and nothing when b < a. |
| Paging.Window5 | src/components/Paginacion/Paginacion.tsx:8-23 | The `Paginacion` numbers are min(5, total) consecutive pages within 1..total that contain the current page, centred on it away from the ends. |
| Paging.PaginacionControls | src/components/Paginacion/Paginacion.tsx:27-79 | `<<` leads to page 1 and `<` to the page before, both disabled on page 1; `>` leads to the page after and `>>` to the last page, both disabled on the last page; the numbers are the five-page window, which shows the current page exactly when it lies in 1..total. |
| Paging.PaginacionStaysInRange | src/components/Paginacion/Paginacion.tsx:27-79 | From a page within range, every enabled button of `Paginacion` leads to a page within 1..total. |
| Paging.PaginacionEmptyList | src/components/Paginacion/Paginacion.tsx:61-79 | On an empty list, whatever the page, no number is drawn; `>>` leads to page 0 and `>` to the next page, both enabled on every page but 0; `<<` and `<` are disabled only on page 1, so `<` from page 0 leads to page −1. |
| Paging.Window4 | src/components/resultado-busqueda/Resultados-Busqueda.tsx:62-89 | The sliding window draws min(4, total) consecutive pages within 1..total that contain the current page, with the current page second away from the ends. |
| Paging.ClampedArrows | src/components/resultado-busqueda/Resultados-Busqueda.tsx:136-155 | The clamped arrows stay within 1..total from a page in range, step by one inside it, and are disabled exactly at the first and last page. |
| Paging.LeadingPages | src/components/Formularios/Marcas/Marcas.tsx:102-110 | The older strip draws pages 1 to min(4, total), whatever the current page. |
| Paging.PlainArrows | src/components/Formularios/Marcas/Marcas.tsx:92-120 | The older arrows move by one without clamping and are disabled only at page 1 and exactly at the last page. |
| Paging.LeadingPagesHideLater | src/components/Formularios/Marcas/Marcas.tsx:102-110 | No number button of the older strip names a page beyond four. |
| Brands.Loaded | src/Formularios/Marcas/Marcas.tsx:176-191 | A 2xx answer replaces the list with the answer's brands, in order, a missing name read as ""; any other answer keeps the list and shows the fetch error. |
| Brands.SubmitRequest | src/Formularios/Marcas/Marcas.tsx:193-226 | A blank draft sends nothing; otherwise the lower-cased draft goes out, as a PUT to the edited uuid exactly when one is being edited. |
| Brands.Submit | src/Formularios/Marcas/Marcas.tsx:193-237 | A failed save only shows the save error; an accepted rename renames exactly the edited brand and leaves edit mode; an accepted create appends the returned brand; the draft empties on success. |
| Brands.StartEdit | src/Formularios/Marcas/Marcas.tsx:239-245 | Opening a known brand puts the capitalized name of the first brand with that uuid in the draft and its uuid in edit mode, and nothing else changes; an unknown uuid changes nothing. |
| Brands.Delete | src/Formularios/Marcas/Marcas.tsx:247-263 | Nothing happens without confirmation; a failure shows the delete error; success removes exactly the brands with that uuid, keeping every other brand in order and as many times as it was stored. |
| Brands.Search | src/Formularios/Marcas/Marcas.tsx:167-170 | A new search term sends the list back to page 1. |
| Brands.Filtered | src/Formularios/Marcas/Marcas.tsx:265-267 | `marcasFiltradas` holds, in order, exactly the brands whose name contains the term ignoring case, each as many times as it is stored. |
| Brands.View | src/Formularios/Marcas/Marcas.tsx:265-272 | The list shows, in order, exactly the brands whose name contains the term ignoring case, each as many times as it is stored, eight a page, on the fewest pages that hold them. |
| Brands.SearchShowsFirstPage | src/Formularios/Marcas/Marcas.tsx:167-170 | Right after a search the first up to eight matches are shown. |
| Brands.EditThenSave | src/Formularios/Marcas/Marcas.tsx:193-245 | Opening a brand and saving at once sends its stored name lower-cased to its own uuid, undoing the capitalization except that a word-initial µ is sent as μ, and sends nothing for a blank name. |
| Brands.CreateThenDelete | src/Formularios/Marcas/Marcas.tsx:227-256 | A created brand with a fresh uuid, deleted again, leaves the list as it was. |
| Brands.UuidsStayUnique | src/Formularios/Marcas/Marcas.tsx:193-263 | Saving and deleting keep brand uuids unique, given fresh uuids from the backend. |
| Categories.Loaded | src/Formularios/Categorias/Categorias.tsx:95-114 | The list is replaced only by a 2xx answer with `success` set and an array; otherwise it stays and an error shows. |
| Categories.SubmitRequest | src/Formularios/Categorias/Categorias.tsx:120-150 | A blank draft sends nothing; otherwise the lower-cased draft goes out, as a PUT exactly when editing. |
| Categories.Submit | src/Formularios/Categorias/Categorias.tsx:120-166 | Any 2xx answer's record replaces the edited category or is appended; the form clears; a failure names whichever of update or create failed. |
| Categories.StartEdit | src/Formularios/Categorias/Categorias.tsx:168-174 | Opening a known category copies the stored name of the first category with that uuid into the draft verbatim and marks that uuid as edited, and nothing else changes; an unknown uuid changes nothing. |
| Categories.Delete | src/Formularios/Categorias/Categorias.tsx:176-195 | Without confirmation, a 2xx answer removes exactly the categories with that uuid, keeping every other category in order and as many times as it was stored; a failure shows the delete error. |
| Categories.Search | src/Formularios/Categorias/Categorias.tsx:220-222 | A new term sends the list back to page 1. |
| Categories.Filtered | src/Formularios/Categorias/Categorias.tsx:202-205 | The filter keeps, in order, exactly the categories with a non-empty string name containing the term, each as many times as it is stored. |
| Categories.View | src/Formularios/Categorias/Categorias.tsx:197-214 | The list shows exactly the categories with a non-empty string name containing the term, each as many times as it is stored, seven a page, with at least one page and a pager only for a non-empty list; beyond that one page, the fewest pages that hold them. |
| Categories.NamelessNeverListed | src/Formularios/Categorias/Categorias.tsx:202-205 | A category with a null or empty name is never listed, whereas a named one is listed for the empty term. |
| Categories.EditThenSave | src/Formularios/Categorias/Categorias.tsx:120-174 | Opening a category and saving at once sends its stored name lower-cased to its uuid. |
| Categories.CreateThenDelete | src/Formularios/Categorias/Categorias.tsx:144-188 | A created category with a fresh uuid, deleted again, leaves the list as it was. |
| Providers.SelectBrand | src/Formularios/Proveedores/Proveedores.tsx:173-181 | A brand not yet chosen joins the form with its name lower-cased; a chosen one is not added twice; the picker text empties. |
| Providers.RemoveBrand | src/Formularios/Proveedores/Proveedores.tsx:183-185 | Removing a brand drops exactly the entries with its uuid, keeping the rest in order and with their copies, and changes nothing else. |
| Providers.SelectThenRemove | src/Formularios/Proveedores/Proveedores.tsx:173-185 | Choosing an unchosen brand and removing it again restores the form's brand list. |
| Providers.Candidates | src/Formularios/Proveedores/Proveedores.tsx:301-305 | The picker offers, in catalogue order, exactly the brands whose name contains the picker text and that are not chosen yet, each as many times as the catalogue lists it. |
| Providers.PickedNotOffered | src/Formularios/Proveedores/Proveedores.tsx:173-305 | A brand just chosen is no longer offered. |
| Providers.Payload | src/Formularios/Proveedores/Proveedores.tsx:189-197 | The body lower-cases company, NIT, representative, e-mail and brand names, keeps person type and phone as typed, and keeps brand uuids and order. |
| Providers.PayloadNormalised | src/Formularios/Proveedores/Proveedores.tsx:189-197 | The lower-cased body fields are lower-case, and building a body from a body changes nothing. |
| Providers.SubmitRequest | src/Formularios/Proveedores/Proveedores.tsx:200-209 | The body goes by PUT to the edited id exactly when an id is being edited, else by POST. |
| Providers.Submit | src/Formularios/Proveedores/Proveedores.tsx:187-246 | A successful update writes the form as typed over the edited provider; a successful create appends the returned provider; either clears the form; anything else shows an error and keeps list, form and edit state. |
| Providers.Delete | src/Formularios/Proveedores/Proveedores.tsx:249-274 | A 2xx answer with `success` removes exactly the providers with that id, keeping every other provider in order and as many times as it was stored; anything else shows an error. |
| Providers.StartEdit | src/Formularios/Proveedores/Proveedores.tsx:276-279 | Opening a provider fills the form with all its fields, so that form plus id is the provider again. |
| Providers.EditThenSaveKeepsRecord | src/Formularios/Proveedores/Proveedores.tsx:216-219 | Opening a listed provider and saving at once, when the backend agrees, leaves the list unchanged. |
| Providers.Search | src/Formularios/Proveedores/Proveedores.tsx:159-162 | A new term sends the list back to page 1. |
| Providers.Filtered | src/Formularios/Proveedores/Proveedores.tsx:281-290 | `proveedoresFiltrados` holds, in order, exactly the providers with the term in a text field or a brand name, each as many times as it is stored. |
| Providers.View | src/Formularios/Proveedores/Proveedores.tsx:281-295 | The list shows exactly the providers with the term in a text field or a brand name, ignoring case, each as many times as it is stored, four a page, on the fewest pages that hold them. |
| Providers.BrandNameFindsProvider | src/Formularios/Proveedores/Proveedores.tsx:281-290 | Searching for one of a provider's brand names finds that provider. |
| Registries.Loaded | src/Formularios/RegistrosSanitarios/RegistrosSanitarios.tsx:51-60 | The list is replaced only by a 2xx answer with `success` and an array; otherwise it stays and an error toast shows. |
| Registries.PickFile | src/Formularios/RegistrosSanitarios/RegistrosSanitarios.tsx:163-183 | No file or a non-PDF file changes nothing; a PDF stores its name and the second comma piece of its data URL. |
| Registries.PickPdfStoresPayload | src/Formularios/RegistrosSanitarios/RegistrosSanitarios.tsx:171-181 | For a data URL "header,payload" the stored content is exactly the payload. |
| Registries.DeleteFile | src/Formularios/RegistrosSanitarios/RegistrosSanitarios.tsx:185-192 | Deleting the file clears only the file fields and shows the file input. |
| Registries.Normalised | src/Formularios/RegistrosSanitarios/RegistrosSanitarios.tsx:196-202 | The body lower-cases number, cluster, status and risk type and keeps date and file as they are. |
| Registries.NormalisedIdempotent | src/Formularios/RegistrosSanitarios/RegistrosSanitarios.tsx:196-202 | Normalising twice is normalising once. |
| Registries.SubmitRequest | src/Formularios/RegistrosSanitarios/RegistrosSanitarios.tsx:204-211 | The normalised body goes by PUT to the edited uuid exactly when editing, else by POST. |
| Registries.Submit | src/Formularios/RegistrosSanitarios/RegistrosSanitarios.tsx:194-223 | An accepted answer's record replaces the edited one or is appended, and the form resets; anything else keeps list and form and shows an error. |
| Registries.ResetForm | src/Formularios/RegistrosSanitarios/RegistrosSanitarios.tsx:225-236 | Resetting empties all seven fields and shows the file input, touching nothing else. |
| Registries.StartEdit | src/Formularios/RegistrosSanitarios/RegistrosSanitarios.tsx:238-250 | Opening a record fills the form with its fields, its URL in place of the file name and no content, and hides the file input. |
| Registries.EditThenSaveResends | src/Formularios/RegistrosSanitarios/RegistrosSanitarios.tsx:196-250 | Opening a record whose text is already lower-case and saving at once resends its fields unchanged to its uuid. |
| Registries.Delete | src/Formularios/RegistrosSanitarios/RegistrosSanitarios.tsx:252-260 | Only a 2xx answer with `success` removes exactly the records with that uuid, keeping every other record in order and as many times as it was stored. |
| Registries.CreateThenDelete | src/Formularios/RegistrosSanitarios/RegistrosSanitarios.tsx:210-255 | A created record with a fresh uuid, deleted again, leaves the list as it was. |
| Registries.Search | src/Formularios/RegistrosSanitarios/RegistrosSanitarios.tsx:131-134 | A new term sends the list back to page 1. |
| Registries.Filtered | src/Formularios/RegistrosSanitarios/RegistrosSanitarios.tsx:262-266 | `registrosFiltrados` holds, in order, exactly the records with the term in number, cluster or status, each as many times as it is stored. |
| Registries.View | src/Formularios/RegistrosSanitarios/RegistrosSanitarios.tsx:262-271 | The list shows exactly the records with the term in number, cluster or status, ignoring case, each as many times as it is stored, three a page, on the fewest pages that hold them. |
| ProductEdit.LowerItems | src/components/Formularios/Productos/FormularioEditarProducto.tsx:559-560 | Lower-casing an array keeps its length and lower-cases element by element. |
| ProductEdit.LowerFields | src/components/Formularios/Productos/FormularioEditarProducto.tsx:561-562 | Lower-casing an object keeps every key and position and lower-cases each value. |
| ProductEdit.LowercaseValue | src/components/Formularios/Productos/FormularioEditarProducto.tsx:556-565 | A string becomes a lower-case string of the same length, an array an array of the same length, an object an object with the same keys; any other value is returned as it is. |
| ProductEdit.LowercaseValueSpec | src/components/Formularios/Productos/FormularioEditarProducto.tsx:556-565 | `lowercaseValue` keeps the structure of any value and leaves only lower-case strings in it. |
| ProductEdit.LowerItemsSpec | src/components/Formularios/Productos/FormularioEditarProducto.tsx:559-560 | The same for arrays. |
| ProductEdit.LowerFieldsSpec | src/components/Formularios/Productos/FormularioEditarProducto.tsx:561-562 | The same for objects. |
| ProductEdit.LowercaseValueIdempotent | src/components/Formularios/Productos/FormularioEditarProducto.tsx:556-565 | Lower-casing a value twice is lower-casing it once. |
| ProductEdit.ObjSet | src/components/Formularios/Productos/FormularioEditarProducto.tsx:570 | `obj[key] = val` overwrites an existing key in place and appends a new one at the end; either way the object then holds the pair. |
| ProductEdit.Keys | src/components/Formularios/Productos/FormularioEditarProducto.tsx:567-574 | The keys of an object, in order. |
| ProductEdit.RenameKey | src/components/Formularios/Productos/FormularioEditarProducto.tsx:569 | `keyMapping[key] \|\| key` renames a mapped key and keeps any other. |
| ProductEdit.MapEntries | src/components/Formularios/Productos/FormularioEditarProducto.tsx:567-574 | Each entry renamed and lower-cased, position by position. |
| ProductEdit.RenameEntries | src/components/Formularios/Productos/FormularioEditarProducto.tsx:567-574 | The `reduce` keeps the accumulator's keys in place and adds at most one key per entry. |
| ProductEdit.RenameEntriesSpec | src/components/Formularios/Productos/FormularioEditarProducto.tsx:567-574 | When no two entries are renamed alike, the `reduce` yields every entry in order, renamed and lower-cased. |
| ProductEdit.Entries | src/components/Formularios/Productos/FormularioEditarProducto.tsx:369-393 | `Object.entries` of a loaded product has its 18 fields, after the `uuid` when present. |
| ProductEdit.ImagesPayload | src/components/Formularios/Productos/FormularioEditarProducto.tsx:579-588 | The images member lists the stored URLs, named by their last segment, then the new files, in order. |
| ProductEdit.SheetPayload | src/components/Formularios/Productos/FormularioEditarProducto.tsx:589-602 | The sheet member is null when deleted, else the new file, else the stored URL named by its last segment, else null. |
| ProductEdit.RenameTable | src/components/Formularios/Productos/FormularioEditarProducto.tsx:540-554 | `keyMapping` renames exactly the thirteen form keys and leaves `iva` and the four lists as they are. |
| ProductEdit.EntryKeys | src/components/Formularios/Productos/FormularioEditarProducto.tsx:369-393 | The entries' keys are the optional `uuid` followed by the form keys in load order. |
| ProductEdit.KeyRank | src/components/Formularios/Productos/FormularioEditarProducto.tsx:576-602 | Each body key is found at its own position in the signature table. |
| ProductEdit.AllKeysDistinct | src/components/Formularios/Productos/FormularioEditarProducto.tsx:576-602 | The body's twenty possible keys are pairwise different. |
| ProductEdit.PayloadKeysDistinct | src/components/Formularios/Productos/FormularioEditarProducto.tsx:576-602 | No key occurs twice in the body. |
| ProductEdit.MappedKeys | src/components/Formularios/Productos/FormularioEditarProducto.tsx:567-574 | The mapped product's keys are the backend's names, in load order. |
| ProductEdit.MappedSpec | src/components/Formularios/Productos/FormularioEditarProducto.tsx:567-574 | The `reduce` over a loaded product gives all its entries, in order, renamed and lower-cased. |
| ProductEdit.OverrideSpec | src/components/Formularios/Productos/FormularioEditarProducto.tsx:576-602 | Spreading an object and then writing `iva`, `images` and a new `technical_sheet` overwrites the first two in place and appends the third. |
| ProductEdit.ProductData | src/components/Formularios/Productos/FormularioEditarProducto.tsx:576-602 | The body is an object holding `iva` with the product's boolean, `images` with the stored and new image files, and `technical_sheet` with the sheet's payload. |
| ProductEdit.ProductDataShape | src/components/Formularios/Productos/FormularioEditarProducto.tsx:576-602 | The body is the mapped entries with `iva` and `images` overwritten and `technical_sheet` appended. |
| ProductEdit.ProductDataKeys | src/components/Formularios/Productos/FormularioEditarProducto.tsx:576-602 | The body's keys, in order, end with `technical_sheet`. |
| ProductEdit.ProductDataValues | src/components/Formularios/Productos/FormularioEditarProducto.tsx:576-602 | Each form field's value reaches the body lower-cased under the backend's name, while `iva` stays a boolean. |
| ProductEdit.ProductDataSpec | src/components/Formularios/Productos/FormularioEditarProducto.tsx:536-602 | The body holds exactly the expected keys in order, each form value lower-cased, the raw `iva`, the images and the sheet. |
| ProductEdit.IvaAndImagesPlaces | src/components/Formularios/Productos/FormularioEditarProducto.tsx:576-588 | `iva` and `images` sit at their load-order places among the entries, and `iva` holds the product's flag. |
| ProductEdit.Loaded | src/components/Formularios/Productos/FormularioEditarProducto.tsx:446-465 | Loading takes the product, drops pending image files and, when the product has sheets, points the sheet at the first one's document. |
| ProductEdit.DropImages | src/components/Formularios/Productos/FormularioEditarProducto.tsx:476-478 | Dropped files go after those already pending; product and sheet are untouched. |
| ProductEdit.DeleteExistingImage | src/components/Formularios/Productos/FormularioEditarProducto.tsx:525-530 | One stored image is removed by index and nothing else changes. |
| ProductEdit.DeleteNewImage | src/components/Formularios/Productos/FormularioEditarProducto.tsx:532-534 | One pending file is removed by index and nothing else changes. |
| ProductEdit.ChangeSheet | src/components/Formularios/Productos/FormularioEditarProducto.tsx:480-488 | A chosen file replaces the sheet (no URL, not deleted); no file changes nothing. |
| ProductEdit.DeleteSheet | src/components/Formularios/Productos/FormularioEditarProducto.tsx:490-496 | After deleting the sheet the body's sheet is null. |
| ProductEdit.CancelSheetFile | src/components/Formularios/Productos/FormularioEditarProducto.tsx:778 | Cancelling a new sheet file also forgets the stored URL, so the body's sheet is null although not deleted. |
| ProductEdit.LoadedSheetSent | src/components/Formularios/Productos/FormularioEditarProducto.tsx:452-458 | After a load the body sends the first stored sheet's document, named by its last segment. |
| ProductEdit.ChangeCharacteristic | src/components/Formularios/Productos/FormularioEditarProducto.tsx:498-505 | Exactly one field of one characteristic takes the new text; "name" edits the `characteristic` text. |
| ProductEdit.AddCharacteristic | src/components/Formularios/Productos/FormularioEditarProducto.tsx:507-512 | A blank characteristic with the fresh id is appended and nothing else changes. |
| ProductEdit.RemoveCharacteristic | src/components/Formularios/Productos/FormularioEditarProducto.tsx:514-519 | One characteristic is removed by index and nothing else changes. |
| ProductEdit.AddThenRemoveCharacteristic | src/components/Formularios/Productos/FormularioEditarProducto.tsx:507-519 | Adding a characteristic and removing the last one restores the form. |
| ProductEdit.DeleteImageInPayload | src/components/Formularios/Productos/FormularioEditarProducto.tsx:525-588 | Deleting the i-th stored image removes exactly the i-th entry of the body's image list. |
| LegacyNamed.Submit | src/components/Formularios/Marcas/Marcas.tsx:137-150 | A blank draft changes nothing; an edit renames the item with the edited id to the draft as typed; a create appends a new item; the draft empties and edit mode ends. |
| LegacyNamed.StartEdit | src/components/Formularios/Marcas/Marcas.tsx:152-158 | Opening a known id fills the draft with the stored name of the first item with that id and marks that id as edited, and nothing else changes; an unknown id changes nothing. |
| LegacyNamed.Delete | src/components/Formularios/Marcas/Marcas.tsx:160-162 | Every item with the id goes; the others stay in order, each as many times as it was stored. |
| LegacyNamed.Search | src/components/Formularios/Marcas/Marcas.tsx:36-52 | Typing a term changes the term only and keeps the page. |
| LegacyNamed.GoTo | src/components/Formularios/Marcas/Marcas.tsx:102-110 | A page button moves to its page and changes nothing else. |
| LegacyNamed.Filtered | src/components/Formularios/Marcas/Marcas.tsx:164-168 | The filter keeps, in order, exactly the items whose name contains the term ignoring case, each as many times as it is stored. |
| LegacyNamed.Render | src/components/Formularios/Marcas/Marcas.tsx:164-176 | The list shows exactly the items whose name contains the term ignoring case, each as many times as it is stored, seven a page, with the first-four-pages strip and unclamped arrows, on the fewest pages that hold them. |
| LegacyNamed.SearchCanHideMatches | src/components/Formularios/Marcas/Marcas.tsx:164-176 | On page 2 or later, a term with one to seven matches leaves the page empty although items match; page 1 shows them all. |
| LegacyNamed.CreateThenDelete | src/components/Formularios/Marcas/Marcas.tsx:137-162 | A created item with a fresh id, deleted again, leaves the list as it was. |
| LegacyNamed.EditThenSave | src/components/Formularios/Marcas/Marcas.tsx:137-158 | Opening an item with a non-blank name and saving at once leaves the list unchanged. |
| LegacyNamed.IdsStayUnique | src/components/Formularios/Categorias/Categorias.tsx:139-164 | With fresh ids for new items, saving and deleting keep ids unique. |
| LegacyProviders.SelectBrand | src/components/Formularios/Proveedores/Proveedores.tsx:90-95 | An absent name is appended, a present one not added twice, and the brand search box empties. |
| LegacyProviders.RemoveBrand | src/components/Formularios/Proveedores/Proveedores.tsx:97-99 | Every copy of the name goes; the other names stay in order, each as many times as it was picked. |
| LegacyProviders.SelectThenRemove | src/components/Formularios/Proveedores/Proveedores.tsx:90-99 | Picking an unpicked name and removing it restores the form's list. |
| LegacyProviders.BrandsStayDistinct | src/components/Formularios/Proveedores/Proveedores.tsx:90-99 | Picking and removing keep the picked names distinct. |
| LegacyProviders.Candidates | src/components/Formularios/Proveedores/Proveedores.tsx:168-170 | The dropdown offers, in list order, exactly the available names containing the text, ignoring case, and not yet picked. |
| LegacyProviders.PickedNotOffered | src/components/Formularios/Proveedores/Proveedores.tsx:90-170 | A picked name is not offered again, and after a pick every other unpicked name is. |
| LegacyProviders.Payload | src/components/Formularios/Proveedores/Proveedores.tsx:103-110 | The body carries the six fields as typed and one `{name}` per picked brand, in order. |
| LegacyProviders.SaveRequest | src/components/Formularios/Proveedores/Proveedores.tsx:111-120 | The body goes by PUT to the edited id exactly when that id is truthy, else by POST. |
| LegacyProviders.Reloaded | src/components/Formularios/Proveedores/Proveedores.tsx:71-83 | The list is replaced by a reload answer exactly when it reports success and carries an array. |
| LegacyProviders.Submit | src/components/Formularios/Proveedores/Proveedores.tsx:101-137 | A failed save changes nothing; a successful one reloads the list, clears the form and leaves edit mode. |
| LegacyProviders.Delete | src/components/Formularios/Proveedores/Proveedores.tsx:139-153 | A successful delete reloads the list; a failed one changes nothing. |
| LegacyProviders.BrandNames | src/components/Formularios/Proveedores/Proveedores.tsx:155-166 | The brand names of a provider, in order. |
| LegacyProviders.StartEdit | src/components/Formularios/Proveedores/Proveedores.tsx:155-166 | Opening a provider fills the form with its fields and brand names and marks its uuid as edited. |
| LegacyProviders.EditThenSaveSendsProvider | src/components/Formularios/Proveedores/Proveedores.tsx:101-166 | Opening a provider and saving at once sends exactly what it holds, to its own address when its uuid is non-empty. |
| LegacyProviders.Filtered | src/components/Formularios/Proveedores/Proveedores.tsx:172-176 | `filteredProveedores` holds, in order, exactly the providers with the term in name, representative or e-mail, each as many times as it is stored. |
| LegacyProviders.Render | src/components/Formularios/Proveedores/Proveedores.tsx:172-194 | The list shows exactly the providers with the term in name, representative or e-mail, each as many times as it is stored, four a page, with the sliding window and clamped arrows, on the fewest pages that hold them. |
| LegacyProviders.PrevPage | src/components/Formularios/Proveedores/Proveedores.tsx:377-378 | The left arrow moves to max(1, page − 1). |
| LegacyProviders.NextPage | src/components/Formularios/Proveedores/Proveedores.tsx:399-400 | The right arrow moves to min(total, page + 1). |
| LegacyProviders.ArrowsStayInRange | src/components/Formularios/Proveedores/Proveedores.tsx:377-400 | From a page in range both arrows stay in range and land on pages that show providers. |
| LegacyProviders.NextOnEmptyList | src/components/Formularios/Proveedores/Proveedores.tsx:399-400 | With nothing to show, the right arrow goes to page 0, which shows nothing. |
| LegacyRegistries.DraftName | src/components/Formularios/RegistrosSanitarios/RegistrosSanitarios.tsx:61 | `formData.archivo.name`, read when `formData.archivo` is truthy, names a picked file and is undefined for anything else, a stored file name included. |
| LegacyRegistries.MaxId | src/components/Formularios/RegistrosSanitarios/RegistrosSanitarios.tsx:65 | The largest id of a non-empty list: no record's id exceeds it and some record has it. |
| LegacyRegistries.NewId | src/components/Formularios/RegistrosSanitarios/RegistrosSanitarios.tsx:65 | A new id is used by no record, and is 1 for an empty list. |
| LegacyRegistries.Created | src/components/Formularios/RegistrosSanitarios/RegistrosSanitarios.tsx:66-71 | A new record takes the fresh id, the form's fields and the picked file's name. |
| LegacyRegistries.EditedAsWritten | src/components/Formularios/RegistrosSanitarios/RegistrosSanitarios.tsx:59-63 | As written, an edit with a truthy file field stores `archivo.name`, which is undefined unless a file was picked. |
| LegacyRegistries.Edited | src/components/Formularios/RegistrosSanitarios/RegistrosSanitarios.tsx:59-63 | Corrected edit: a picked file replaces the attachment, otherwise the record keeps its own. |
| LegacyRegistries.UpdateAsWritten | src/components/Formularios/RegistrosSanitarios/RegistrosSanitarios.tsx:59-63 | As written, the record with the edited id takes the as-written edit, others are untouched. |
| LegacyRegistries.Update | src/components/Formularios/RegistrosSanitarios/RegistrosSanitarios.tsx:59-63 | Corrected: the record with the edited id takes the corrected edit, others are untouched. |
| LegacyRegistries.Submit | src/components/Formularios/RegistrosSanitarios/RegistrosSanitarios.tsx:57-74 | Saving updates the edited record or appends a new one with a fresh id, then resets the form and leaves edit mode. |
| LegacyRegistries.StartEdit | src/components/Formularios/RegistrosSanitarios/RegistrosSanitarios.tsx:88-91 | Opening a record fills the form with its fields and its stored attachment and enters edit mode. |
| LegacyRegistries.PickFile | src/components/Formularios/RegistrosSanitarios/RegistrosSanitarios.tsx:53-55 | Choosing a file stores it in the form; choosing none clears the field. |
| LegacyRegistries.Delete | src/components/Formularios/RegistrosSanitarios/RegistrosSanitarios.tsx:93-95 | Every record with the id goes; the others stay in order, each as many times as it was stored. |
| LegacyRegistries.Link | src/components/Formularios/RegistrosSanitarios/RegistrosSanitarios.tsx:220-231 | A record shows a link to "/archivos/" + its file name exactly when it has a non-empty file name. |
| LegacyRegistries.Links | src/components/Formularios/RegistrosSanitarios/RegistrosSanitarios.tsx:220-231 | One link per visible record, in order. |
| LegacyRegistries.Pager | src/components/Formularios/RegistrosSanitarios/RegistrosSanitarios.tsx:104-281 | The strip draws pages 1 to min(4, total), the ellipsis and last-page button exactly when there are more than four pages and the current page is before total − 2, and unclamped arrows. |
| LegacyRegistries.Filtered | src/components/Formularios/RegistrosSanitarios/RegistrosSanitarios.tsx:97-101 | `filteredMarcas` holds, in order, exactly the records with the term in number, group or status, each as many times as it is stored. |
| LegacyRegistries.Render | src/components/Formularios/RegistrosSanitarios/RegistrosSanitarios.tsx:97-108 | The list shows exactly the records with the term in number, group or status, ignoring case, each as many times as it is stored, four a page, with their links and the strip, on the fewest pages that hold them. |
| LegacyRegistries.EditDropsAttachmentAsWritten | src/components/Formularios/RegistrosSanitarios/RegistrosSanitarios.tsx:59-91 | As written, opening a record with an attachment and saving without picking a file leaves it with an undefined attachment. |
| LegacyRegistries.EditDropsAttachmentExample | src/components/Formularios/RegistrosSanitarios/RegistrosSanitarios.tsx:59-91 | Record 1 with "a.pdf", opened and saved, ends with an undefined attachment under the as-written update. |
| LegacyRegistries.EditThenSaveKeepsRecords | src/components/Formularios/RegistrosSanitarios/RegistrosSanitarios.tsx:59-91 | With the corrected update, opening a record and saving at once leaves the list unchanged. |
| LegacyRegistries.EditWithNewFile | src/components/Formularios/RegistrosSanitarios/RegistrosSanitarios.tsx:53-63 | Picking a new file while editing replaces the record's attachment with that file's name. |
| LegacyRegistries.CreateThenDelete | src/components/Formularios/RegistrosSanitarios/RegistrosSanitarios.tsx:65-95 | A created record, deleted again, leaves the list as it was. |
| LegacyRegistries.IdsStayUnique | src/components/Formularios/RegistrosSanitarios/RegistrosSanitarios.tsx:57-95 | Saving and deleting keep record ids unique. |
| Home.HandleSearch | src/components/home/Inicio.tsx:43-48 | A blank query navigates nowhere; any other navigates with the query trimmed, a non-empty slice of it with only whitespace cut off. |
| Home.SearchAgain | src/components/home/Inicio.tsx:43-48 | Searching again for the query searched for changes nothing. |
| Home.EnterSearches | src/components/home/AutocompleteSearch.tsx:50-52 | Enter with the suggestions closed makes the box call `onSearch` with its text, and the page navigates with that text trimmed. |
| Home.DefaultButton | src/components/home/Inicio.tsx:80-93 | While the suggestion list is open the form's default button is the first suggestion, "Marca" (an untyped `<button>` at AutocompleteSearch.tsx:88, before the search button); otherwise it is the search button. |
| Home.PressSuggestion | src/components/home/AutocompleteSearch.tsx:80-90 | A suggestion pressed without a mousedown is picked, and the form then submits the query typed before the pick, unless the pick was already rendered and removed the button from the form. |
| Home.PageStep | src/components/home/Inicio.tsx:80-95 | One action on the search form: Enter with the list open and no highlight clicks the first suggestion; a mouse click on a suggestion only closes the list; the search button closes the list and searches; the page only ever navigates with the box's text from before the action, and, when renders come first, only on Enter with the list closed or the search button. |
| Home.EnterWithNoHighlight | src/components/home/AutocompleteSearch.tsx:38-53 | Enter with the list open and no highlight does nothing in the box's handler, yet the page sets the query to "in: Marca " and closes the list, and searches, if at all, only for the text typed before. |
| Home.PageRun | src/components/home/Inicio.tsx:43-48 | Over any run of actions, every query the page navigates with is non-empty and trimmed, and the highlight stays valid. |
| Home.ImageSrc | src/components/home/Inicio.tsx:107 | An image path starting "http" is used as is; any other is served from the backend's static folder; the result always starts "http". |
| Home.ImageSrcIdempotent | src/components/home/Inicio.tsx:107 | Resolving an image source twice is resolving it once. |
| Home.CardOf | src/components/home/Inicio.tsx:104-115 | A product card shows the resolved image, the capitalized name and brand (the same text up to case, with a word-initial µ reading back as μ, and the same word count) and opens the product's detail page. |
| Autocomplete.Pick | src/components/home/AutocompleteSearch.tsx:55-64 | Choosing a suggestion sets the query to "in: " + suggestion + " " and closes the list. |
| Autocomplete.KeyDown | src/components/home/AutocompleteSearch.tsx:38-53 | The box's key handler alone: with the list open the arrows move the highlight, saturating at both ends, and Enter picks the highlighted suggestion and does nothing without a highlight; with the list closed only Enter acts, calling `onSearch` with the query. |
| Autocomplete.Step | src/components/home/AutocompleteSearch.tsx:29-88 | Any event keeps the highlight valid, and the box calls `onSearch` only on Enter with the list closed. |
| Autocomplete.Run | src/components/home/AutocompleteSearch.tsx:29-88 | Any sequence of events keeps the highlight valid. |
| Autocomplete.HighlightStaysInRange | src/components/home/AutocompleteSearch.tsx:11-45 | From the start, the highlight stays between "none" and the last of the four suggestions. |
| Autocomplete.DownThenUp | src/components/home/AutocompleteSearch.tsx:40-45 | Down then up returns to the same highlight away from the last suggestion. |
| Autocomplete.UpFromNone | src/components/home/AutocompleteSearch.tsx:43-45 | Up with no highlight keeps no highlight. |
| Autocomplete.Downs | src/components/home/AutocompleteSearch.tsx:40-42 | k presses of the down arrow, in a row. |
| Autocomplete.DownSaturates | src/components/home/AutocompleteSearch.tsx:40-42 | k down presses advance the highlight by k, stopping at the last suggestion. |
| SearchResults.CardDescription | src/components/resultado-busqueda/ProductCard.tsx:24-42 | A description of at most ten words is shown whole; a longer one shows its first ten words, a prefix of it, then "...". |
| SearchResults.CardDescriptionIdempotent | src/components/resultado-busqueda/ProductCard.tsx:24-42 | Cutting a card description again changes nothing. |
| SearchResults.CardDescriptionWords | src/components/resultado-busqueda/ProductCard.tsx:24-42 | The shown words are exactly the description's first ten words. |
| SearchResults.TotalPages | src/components/resultado-busqueda/Resultados-Busqueda.tsx:45-46 | The page count is `Math.ceil(results / 10)`: the fewest pages of ten that hold the results, zero only for none. |
| SearchResults.Visible | src/components/resultado-busqueda/Resultados-Busqueda.tsx:56-58 | A page shows at most ten consecutive results, and is non-empty exactly up to the page count. |
| SearchResults.Strip | src/components/resultado-busqueda/Resultados-Busqueda.tsx:62-89 | The strip's numbers are the four-page sliding window around the current page. |
| SearchResults.OnClick | src/components/resultado-busqueda/Resultados-Busqueda.tsx:136-155 | Clicking an offered button keeps the results and, on a non-empty list, lands within 1..total; on an empty list the next arrow goes to page 0. |
| SearchResults.Clicks | src/components/resultado-busqueda/Resultados-Busqueda.tsx:136-155 | Any run of clicks from a page in range stays in range. |
| SearchResults.ClicksKeepProductsShown | src/components/resultado-busqueda/Resultados-Busqueda.tsx:56-155 | From page 1 of a non-empty list, any clicks keep the page showing products. |
| SearchResults.EmptyResultsNextArrow | src/components/resultado-busqueda/Resultados-Busqueda.tsx:152-153 | With no results the next arrow goes to page 0, where nothing shows. |
| Carousel.JsRem | src/components/DetalleProducto/ImageCarousel.tsx:12 | JavaScript's `%` takes the sign of the dividend: the Euclidean remainder for a non-negative one, its negation's negated otherwise. |
| Carousel.Next | src/components/DetalleProducto/ImageCarousel.tsx:11-13 | The next index stays within the images, steps by one, and wraps from the last to the first. |
| Carousel.Prev | src/components/DetalleProducto/ImageCarousel.tsx:15-17 | The previous index stays within the images, steps back by one, and wraps from the first to the last. |
| Carousel.NextPrevInverse | src/components/DetalleProducto/ImageCarousel.tsx:11-17 | Next and previous undo each other on every valid index. |
| Carousel.NextTimes | src/components/DetalleProducto/ImageCarousel.tsx:11-13 | Any number of next clicks from a valid index leaves a valid index. |
| Carousel.NextTimesAdvances | src/components/DetalleProducto/ImageCarousel.tsx:11-13 | k next clicks advance by k, wrapping once past the end. |
| Carousel.FullTurn | src/components/DetalleProducto/ImageCarousel.tsx:11-13 | As many next clicks as images return to the start. |
| Carousel.Shown | src/components/DetalleProducto/ImageCarousel.tsx:19-32 | No images shows the placeholder; otherwise the current image is shown. |
| Carousel.Thumbnails | src/components/DetalleProducto/ImageCarousel.tsx:55-60 | One thumbnail per image, in order, ringed exactly at the current index. |
| Carousel.SelectThumb | src/components/DetalleProducto/ImageCarousel.tsx:59 | Clicking a thumbnail shows its image. |
| Carousel.SelectThenRing | src/components/DetalleProducto/ImageCarousel.tsx:55-60 | After clicking a thumbnail only it is ringed, and stepping away and back returns to it. |
| ProductDetail.Long | src/DetalleProducto/Detalle.tsx:144-159 | A long text shows the full text when expanded, else its first words; the toggle exists exactly when the text has more words than the limit and is labelled by the state it switches to. |
| ProductDetail.ToggleIffCut | src/DetalleProducto/Detalle.tsx:148-159 | The toggle is offered exactly when the collapsed text differs from the full text. |
| ProductDetail.ToggleTwice | src/DetalleProducto/Detalle.tsx:148-159 | Toggling twice gives back what was drawn, and toggling changes the text only when it was cut. |
| ProductDetail.DetailText | src/DetalleProducto/Detalle.tsx:114-159 | A detail text is the sentence-cased long text, never longer than the original. |
| ProductDetail.IvaLabel | src/DetalleProducto/Detalle.tsx:226 | The IVA line reads "Sí" exactly when the product carries IVA, else "No". |
| ProductDetail.Details | src/DetalleProducto/Detalle.tsx:109-226 | The panel capitalizes each label, cuts and sentence-cases the three long texts and shows the IVA line. |
| ProductDetail.DetailsFaithful | src/DetalleProducto/Detalle.tsx:121-146 | Capitalized labels keep their text up to case (a word-initial µ reads back as μ) and their word count, and a collapsed text is the sentence-cased first thirty words. |
| ProductDetail.DocumentLabel | src/DetalleProducto/Detalle.tsx:311 | A document's label is "Documento " followed by digits that read back as its position counted from one. |
| ProductDetail.Documents | src/DetalleProducto/Detalle.tsx:294-323 | No sheets shows the "none" message; otherwise one link per sheet, in order, to the API base plus its path. |
| ProductDetail.DocumentLabelsDistinct | src/DetalleProducto/Detalle.tsx:311 | Different positions get different labels. |
| ProductDetail.StaticDescription | src/components/DetalleProducto/Detalle.tsx:82-106 | The static page cuts its description to a hundred words and shows it whole when it is not cut. |
| ProductDetail.ThirtyWithinHundred | src/components/DetalleProducto/Detalle.tsx:84 | The first thirty words of the hundred-word cut are the first thirty words of the text. |

## Left out

- Autocomplete.KeyDown: states the box's key handler alone. An Enter it does not prevent also reaches the enclosing form, and that page-level effect is stated by Home.PageStep.
- Autocomplete.Step: states the box's own handlers, so its "only Enter with the list closed" is about `onSearch` calls. Searches through the form's submission are stated by Home.PageStep.
- Home.PageStep: React's render schedule and the browser's event order are not part of the source. Whether a click's state change is rendered before the click's default action is the parameter `rerenderedFirst`. For a real mouse click the mousedown's render is taken to happen before the mouse comes up. A click that lands on other page content after the list closes, and the unmounting that follows a navigation, are not modelled.
- Network, rendering and timers: every `fetch`, `alert`, `console`, toast timeout and navigation is a parameter or a returned value. Loading spinners and `isLoading` flags are not modelled.
- `FileReader` and base64 encoding: a picked file arrives with its data URL or base64 content already read.
- Unicode case mapping: `toLowerCase`/`toUpperCase` are modelled for ASCII and Latin-1 letters and for the two letters outside Latin-1 that µ and ÿ upper-case to (Μ, whose lower case is μ, and Ÿ). Other scripts are left unchanged, and no special casing is modelled.
- `encodeURIComponent` in the home search is not modelled; the model returns the trimmed query that would be encoded.
- Plain input handlers (`handleInputChange`, `handleSelectChange`) only copy a field into the form and are left out.
- The dashboard, navigation bar and UI primitives are not part of this model.
- `fetchProductData` mapping of backend fields to the form (`data.brand.uuid`, `status === "True"`, `iva \|\| false`) is taken as given: the model starts from the loaded `Producto`.
- Backend `null`s in list records (other than a category's name) are not modelled; fields are strings.
- `keyMapping` lookups of inherited keys (`keyMapping["constructor"]`) are not modelled; the product has no such key.
- The regular-expression capitalizers of the current provider screen (`capitalizeWords`) and of the product form are display-only and left out.
- ProductEdit.ChangeCharacteristic: requires an index inside the list; the source writes past the end for an outside index, creating a sparse array.
- Categories.Submit: a 2xx answer without a `data` member keeps the list, whereas the source appends or writes `undefined`.
- Categories.StartEdit: a null name fills the draft with "", whereas the source puts `null` in the input.
- Brands.Submit: a rename whose answer lacks a name stores "", whereas the source stores `undefined`.
- Words.DataUrlPayload: `split(',')[1]` is the piece between the first and second comma; payloads containing a comma are not considered, since base64 has none.
- Registries.PickFile: a data URL without a comma stores "" as content, where the source stores `undefined`.
- Carousel.Shown: an index past the end (after the image list shrinks) shows an undefined picture; the stale index itself is not reset.
- LegacyNamed.Submit and LegacyProviders: `Date.now()` ids and fresh uuids are parameters; their freshness is a precondition of the uniqueness lemmas.
- Words.TitleCaseSpec and Words.SentenceCaseSpec: `charAt(0).toUpperCase()` of a character whose upper case is longer (ß) is not modelled.
- LegacyProviders.Submit: a network error is treated as `saved = false`; the source's catch only logs, leaving the screen as it was.
- LegacyRegistries.Submit: uses the corrected update of the findings below, not the code as written.
- LegacyProviders.SaveRequest: the form's title switches on `editingId !== null`, while the request switches on truthiness; the title is not modelled.
- ProductDetail.Documents: the API base address is a parameter.

## Findings

| source | as written | input that shows it | evidently intended | confidence | as-written member | corrected member |
|---|---|---|---|---|---|---|
| src/components/Formularios/RegistrosSanitarios/RegistrosSanitarios.tsx:59-63 | The update stores `archivo: formData.archivo ? formData.archivo.name : marca.archivo`. After `iniciarEdicion` the field holds the stored file-name string, which is truthy, and its `.name` is `undefined`. | Record `{id: 1, archivo: "a.pdf"}`: open it with the edit button and save without picking a file. The record's `archivo` becomes `undefined` and its link disappears. | Keep the record's own attachment unless a new file was picked. | high, not executed | LegacyRegistries.EditDropsAttachmentExample | LegacyRegistries.EditThenSaveKeepsRecords |
