# KnittedItems catalogue: a Dafny model of the request handlers

KnittedItems is a small Express/Sequelize shop catalogue. Its only logic is in three
request handlers: the product listing, the product detail page and the "about" page. The
about page shows the newest product of every category. This project models those handlers,
the `KnittedItem` table they read, and the router that sends GET requests to them. It then
proves what each handler answers for every state of the table.

Modules:

- `KnittedItemModel` (knitted_item_model.dfy) holds the `Item` row and the `DECIMAL(10,2)`
  price rule. Prices are integer cents. It also has `Build`, the row Sequelize makes from
  `create` attributes. `Build` rejects a missing `name` or `price` and sets `createdAt` and
  `updatedAt`.
- `Storage` (storage.dfy) is the table as the controller sees it: a snapshot of rows
  (`Store.rows`) plus the set of queries that throw (`Store.failing`). It defines the four
  queries the controller issues (`findAll`, `findByPk`, the `GROUP BY category` query and
  the newest row of a category), and `Create` with its auto-increment key.
- `KnittedItemController` (knitted_item_controller.dfy) holds the three handlers. Each
  returns a `Response`: `Render(view, locals)`, `NotFound404(view, pageTitle)` or
  `Error500(body)`. `getAbout` is the method `GetAbout`. Its `for` loop pushes onto
  `topItems`, and it is proved equal to the function `AboutResponse`.
- `ProductRoutes` (product_routes.dfy) holds the four GET registrations, as `Dispatch`
  from a path to a route with the `:id` capture.
- `Decimal` (decimal.dfy) converts between an integer id and decimal text. The `path` local
  is `/products/${id}`, and a URL segment is read back as an integer key.
- `Wrappers` (wrappers.dfy) holds `Option` and `Result`.

Three behaviours of the code a reader might not expect:

- A null category is an ordinary group. `GROUP BY category` yields it, and
  `where: {category: null}` selects those rows, so the about page shows one uncategorised
  item (`NullCategoryIsShown`). Nothing excludes them.
- A negative price is admitted. The schema only bounds the magnitude.
- A per-category lookup that throws aborts the whole about page with a 500. It is not
  skipped, because the loop sits inside the `try`.

## Model

| member | source | states |
|---|---|---|
| `KnittedItemModel.ValidPriceTenDigits` | models/product.js:27-30 | a price in cents fits DECIMAL(10,2) exactly when its magnitude has at most ten decimal digits; negative prices are admitted |
| `KnittedItemModel.Build` | models/product.js:11-51 | a row is built exactly when `name` and `price` are given and the price fits DECIMAL(10,2); nullable columns are copied as given; `id` is the key supplied; `createdAt` and `updatedAt` are both the creation instant |
| `Storage.Create` | models/product.js:12-50 | creating appends exactly one row and changes nothing else; the row is the one `Build` makes from the given attributes, its auto-increment key exceeds every stored id and its two timestamps are the creation instant; it fails exactly when `Build` does or the INTEGER key space is used up |
| `Storage.CreateKeepsValid` | models/product.js:12 | creating a row keeps every row admitted by the schema and every primary key unique |
| `Storage.MaxId` | models/product.js:12 | the auto-increment base is at least every stored id |
| `Decimal.ToDecimalLength` | models/product.js:28 | an integer has at most k digits exactly when it is below 10^k, the digit count a DECIMAL precision limits |
| `Storage.FindAll` | controllers/knittedItemController.js:13 | `findAll` throws exactly when it fails, else returns the stored rows in storage order |
| `Storage.WithId` | controllers/knittedItemController.js:39 | the row found has the requested id and is stored; none is found exactly when no stored row has that id |
| `Storage.FindByPk` | controllers/knittedItemController.js:36-39 | `findByPk` throws exactly when it fails; it finds a stored row whose id is the decimal value of the key, and finds nothing exactly when no row's id matches |
| `Storage.FindByPkStored` | controllers/knittedItemController.js:39 | in a table with unique keys, looking an item up by its printed id returns that very item |
| `Storage.Categories` | controllers/knittedItemController.js:67-70 | the grouping lists every category value of the stored rows, the null one included, each exactly once and none that has no row |
| `Storage.DistinctCategories` | controllers/knittedItemController.js:67-70 | the grouping query throws exactly when it fails, else returns the distinct categories |
| `Storage.Latest` | controllers/knittedItemController.js:76-79 | the row returned is stored, has the category asked for, and was created no earlier than any other row of that category; nothing is returned exactly when the category has no row |
| `Storage.LatestInCategory` | controllers/knittedItemController.js:76-79 | the newest-in-category query throws exactly when it fails, else returns the newest row of the category |
| `Decimal.ToDecimal` | controllers/knittedItemController.js:53 | an id prints as a non-empty string of digits without a leading zero |
| `Decimal.ParseDecimal` | controllers/knittedItemController.js:36-39 | a key has an integer value exactly when it is a non-empty string of digits |
| `Decimal.ParseLeadingZero` | controllers/knittedItemController.js:36-39 | a leading zero does not change a key's integer value ('07' reads as 7); with the round trip this fixes the value of every digit string |
| `Decimal.ParseToDecimal` | controllers/knittedItemController.js:53 | reading back a printed id gives the id |
| `Decimal.ToDecimalInjective` | controllers/knittedItemController.js:53 | distinct ids print to distinct path segments |
| `KnittedItemController.GetAllKnittedItems` | controllers/knittedItemController.js:10-30 | a 500 with body 'Ошибка сервера' exactly when `findAll` throws; otherwise view 'products' with `pageTitle` 'Все товары', `knittedItems` equal to the stored rows (same elements, same order) and `path` '/' |
| `KnittedItemController.PreviousPage` | controllers/knittedItemController.js:47 | `previousPage` is the Referer header when present and non-empty, otherwise '/' |
| `KnittedItemController.GetKnittedItemById` | controllers/knittedItemController.js:33-61 | a 500 with body 'Ошибка сервера' exactly when the lookup throws; a 404 of view '404' titled 'Товар не найдден' exactly when the lookup succeeds and no row has the requested key, so a 404 is never a 500; otherwise view 'product-detail' with the stored row found, its name as `pageTitle`, `path` built from its stored id, and the referrer fallback |
| `KnittedItemController.DetailPath` | controllers/knittedItemController.js:53 | the detail page's `path` is '/products/' followed by the canonical numeral of the item's stored id: digits only, no leading zero, reading back as the id |
| `KnittedItemController.DetailOfStoredItem` | controllers/knittedItemController.js:39-55 | for every stored item, requesting its printed id renders the detail page of exactly that item |
| `KnittedItemController.DetailPathIsCanonical` | controllers/knittedItemController.js:53 | `path` comes from the stored id and not from the request parameter: the parameter '07' renders item 7 with path '/products/7' |
| `KnittedItemController.TopItems` | controllers/knittedItemController.js:75-81 | the loop over categories collects no more items than categories, and when it aborts the error is the one thrown by the lookup of one of the categories |
| `KnittedItemController.AboutResponse` | controllers/knittedItemController.js:64-93 | getAbout's response is never a 404; a 500 carries 'Ошибка сервера'; a render is view 'about' with the about-page title and path '/about' |
| `KnittedItemController.TopItemsCovers` | controllers/knittedItemController.js:75-81 | a lookup that finds nothing is skipped and the loop goes on: every listed category that has a stored row contributes an item |
| `KnittedItemController.TopItemsFailsIff` | controllers/knittedItemController.js:65-92 | the category loop aborts exactly when the lookup of one of its categories throws |
| `KnittedItemController.TopItemsFollowCategories` | controllers/knittedItemController.js:72-81 | over any list of distinct categories, `topItems` has at most one item per category and no more items than categories; each item is a newest row of a listed category; items follow category order; every listed category that has a stored row contributes its item, and one whose lookup finds nothing is skipped without stopping the loop |
| `KnittedItemController.TopItemsComplete` | controllers/knittedItemController.js:67-81 | when every category has a stored row, nothing is skipped: the k-th item belongs to the k-th category |
| `KnittedItemController.AboutFailsIff` | controllers/knittedItemController.js:64-93 | the about handler never answers 404; it answers a 500 with 'Ошибка сервера', and never a partial `topItems`, exactly when the grouping query or any per-category lookup throws; otherwise it renders 'about' with the about-page title and path '/about' |
| `KnittedItemController.AboutShowsLatestPerCategory` | controllers/knittedItemController.js:67-87 | a rendered about page holds exactly one item per stored category, the null category included, each a newest row of its category, in the order of the grouping query; every stored row's category is represented |
| `KnittedItemController.NullCategoryIsShown` | controllers/knittedItemController.js:67-79 | rows without a category are not filtered out: when one exists, the about page shows an uncategorised item |
| `KnittedItemController.NewerItemWins` | controllers/knittedItemController.js:74-81 | of two rows in one category, the about page shows only the newer |
| `KnittedItemController.EmptyTable` | controllers/knittedItemController.js:10-93 | an empty table gives an empty listing, an empty about page and a 404 for every id |
| `KnittedItemController.GetAbout` | controllers/knittedItemController.js:64-93 | the loop accumulating `topItems` and aborting on the first throwing query answers exactly `AboutResponse` |
| `ProductRoutes.Dispatch` | routes/productRoutes.js:15-27 | '/' and '/products' go to the listing handler and nothing else does; '/about' goes to the about handler and nothing else does; a detail route is taken only for '/products/' followed by one non-empty segment, captured as `id`; every other path is unhandled |
| `ProductRoutes.DispatchById` | routes/productRoutes.js:24 | '/products/<seg>' dispatches to the detail handler with `id` equal to `seg`, kept as a string, exactly when `seg` is one non-empty path segment |
| `ProductRoutes.Respond` | routes/productRoutes.js:15-27 | a path gets a response exactly when it is registered; only the detail route answers 404, and a 500 happens only when some query throws |
| `ProductRoutes.RootAndProductsAgree` | routes/productRoutes.js:15-19 | '/' and '/products' give the same response for the same table |
| `ProductRoutes.DetailPathRoundTrip` | routes/productRoutes.js:24 | requesting the `path` local of a stored item's page renders that item's page again |
| `ProductRoutes.Serve` | routes/productRoutes.js:15-27 | running the router, including the looping about handler, answers exactly `Respond` |

## Left out

- Startup (app.js) is not modelled: database creation over mysql2, `sequelize.sync({force: true})`, seeding with `bulkCreate`, `app.listen`. It is all I/O against external services.
- config/database.js is not part of this model. It only reads environment settings.
- Express and EJS are not modelled: request and response objects, template rendering, header parsing and static files. A handler's result is the `Response` value, and the Referer header is an `Option<string>` parameter.
- Express path matching is not modelled. Paths are compared literally: no trailing-slash tolerance, no case-insensitivity, no percent-decoding of `:id`.
- Logging with `console.error` is left out. It has no observable contract.
- async/await is not modelled. The awaits run in sequence and share no state, so queries are ordinary sequential calls.
- SQL generation and connections are not modelled. A query that throws is one listed in `Store.failing`; which queries fail is an input.
- `Storage.FindByPk` does not model MySQL's lenient string-to-integer coercion (for example '1abc' read as 1). A key that is not a decimal numeral matches no row.
- `Storage.Categories` compares category values exactly, so it assumes a binary collation. Under MySQL's default case- and accent-insensitive collations, 'Пледы' and 'пледы' form one group, and the about page then shows one item where this model shows two.
- `Storage.Latest` compares categories exactly as well (binary collation). Under a case-insensitive collation, `where: {category}` would also match rows whose category differs only in case or accents.
- `Storage.Categories` fixes the group order as the order of first occurrence, because SQL leaves `GROUP BY` order unspecified. No contract relies on the first-occurrence choice.
- `Storage.Latest` breaks ties on `createdAt` by keeping the earliest stored row, because SQL leaves the order of tied rows unspecified. No contract relies on this choice.
- `Storage.Store` is one consistent snapshot, so for the table's own categories a lookup never finds nothing. The skip branch, where a category vanishes between the two queries, is covered only over arbitrary category lists (`TopItemsFollowCategories`).
- `KnittedItemModel.ValidItem` omits the length limits of STRING (VARCHAR(255)) and TEXT columns, which depend on the database's character set. Prices given with more than two fractional digits are not modelled either: attributes already carry cents.
- Timestamps are integers, not JavaScript `Date` values. `updatedAt` is only set on creation, because nothing in this core updates a row.
