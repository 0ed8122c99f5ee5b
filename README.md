# Faltantes: a verified model of the shortage tracker's store

The application is a single-page Streamlit app (`app.py`) that a restaurant
uses to track shortages (*faltantes*):

- staff of a sector (Cocina, Barra, Salón) record what is missing;
- a sector role sees only its own sector;
- rows move through the statuses Pendiente, Pedido, Recibido and Anulado;
- an order message ("Pedido WhatsApp") is built from the open rows, grouped by category, and can be saved together with a frozen copy of its rows;
- a product master supplies the sticky category of each product and can be edited or deleted. The edit and the delete act on the product's id. Only the propagation of a rename to the shortages and the reference count that guards the delete go by name.

The data lives in five tables: `productos`, `faltantes`, `movimientos` (an append-only audit log), `pedidos` and `pedido_items`.

The project models this core in Dafny.

- `strings.dfy` (module `Strings`): Python's `str.strip()` and `str.join()`, and the code-point order that pandas uses to sort strings.
- `domain.dfy` (module `Domain`):
  - the records of the five tables;
  - roles and the sectors each role may use;
  - the three per-row status buttons;
  - the product lookup and the sticky category;
  - the lookup a submission uses to find the row it merges into;
  - the list view's filters.
- `auth.dfy` (module `Auth`): the login scan over the configured user list.
- `order_text.dfy` (module `OrderText`): the order view, which normalises, sorts and groups rows, and the loops that build the order message. The category that a row without one is filed under is a parameter of type `Fallback`. The store uses `OtrosAsWritten`, "OTROS", as `app.py` does. The form's own "Otros" is the corrected fallback of "Findings".
- `order_text_as_written.dfy` (module `OrderTextAsWritten`): the input on which the order view with the fallback "OTROS" writes the heading OTROS twice.
- `store.dfy` (module `Store`): the database as a class `Database`.
  - Each table is a `seq` field, with one id counter per table.
  - Each user action is one method that rewrites the tables.
  - Each such method keeps a validity invariant:
    - ids are unique and increasing;
    - product names are unique and non-empty;
    - quantities are never negative;
    - every movement and every order item refers to a stored row.
  - Each method states the complete new state.

Side conditions:

- The Anular button takes effect on a single press. `app.py` asks for no confirmation, and the model follows the code.
- The clock is an abstract `Instant` parameter.
- Python's `str.upper()`, SQL's `lower()` and the `:g` rendering of a quantity are function parameters.
- The two free-text "contains" boxes of the list view are a predicate parameter, `search`.

## Model

| member | source | states |
|---|---|---|
| Auth.Login | app.py:141-151 | The login succeeds exactly when some entry has both the user and the password. It opens the session of the first such entry, and no earlier entry matches. |
| Auth.MissingRoleIsAdmin | app.py:151 | An entry without a role logs in as Admin, and Admin may use all three sectors. |
| Domain.AllowedSectors | app.py:368-378 | The sectors offered to a role: between one and three, all of them real sectors. |
| Domain.AllowedSectorsByRole | app.py:368-378 | A sector role gets exactly its own sector. Admin, and any role that is not a sector name, get all three. |
| Domain.RoleSeesExactlyAllowed | app.py:642-645 | For a row of a real sector, the view's role filter keeps the row exactly when its sector is one the role may submit for. |
| Domain.ButtonsNeverGoBack | app.py:743-780 | An enabled button never lowers a row's place in the lifecycle and never sets it back to Pendiente. |
| Domain.ClosedRowsOnlyCancellable | app.py:743-780 | Recibido and Anulado rows cannot be marked Pedido or Recibido. Cancel is enabled exactly for Admin on a row that is not Anulado. Anulado is final. |
| Domain.FindProduct | app.py:436-439 | The name lookup returns the first index with that name, or None exactly when no product has the name. |
| Domain.EffectiveCategory | app.py:454-456 | The returned category is either the caller's or the trimmed stored category of a product with that name. When no product of that name has a non-blank stored category, it is the caller's. |
| Domain.StoredCategoryWins | app.py:454-456 | For an existing product with a non-blank stored category, the result does not depend on the category the caller selects. It is the trimmed stored category and is not empty. |
| Domain.LastOpenMatch | app.py:559-574 | The merge lookup returns the last row that has the same product, category, unit and sector and is Pendiente or Pedido. It returns None exactly when no row matches. |
| Domain.MergePicksHighestId | app.py:559-574 | When ids increase, the row picked has the highest id among the open matches. |
| Domain.SelectCounts | app.py:642-659 | A filter keeps every accepted row exactly as often as the table holds it and drops every other row. |
| Domain.ListView | app.py:640-659 | The list view holds exactly the rows that pass the role, status, sector, category, priority and search filters. When ids increase in the table, the view lists the newest row first. |
| Domain.SelectKeepsIdOrder | app.py:640-659 | Filtering rows whose ids increase keeps the ids increasing. |
| Domain.ListViewRespectsRole | app.py:642-645 | A sector role never sees a row of another sector in the list view. |
| Strings.StripSpec | app.py:429-430 | `strip()` gives "" exactly for an all-whitespace string. Otherwise its result starts and ends with a non-space character. |
| Strings.StripIdempotent | app.py:551-553 | Stripping an already stripped value changes nothing, so the trims in `submit` and in `upsert_producto` agree. |
| Strings.StrLeTotal | app.py:819 | The string order used by `sort_values` is total. |
| Strings.StrLeTransitive | app.py:819 | The string order used by `sort_values` is transitive. |
| Strings.StrLeAntisymmetric | app.py:819 | The string order used by `sort_values` is antisymmetric. |
| OrderText.NormalizedCategory | app.py:817-818 | A null or blank category becomes the given fallback, which the store sets to "OTROS" as the code does. Any other category is trimmed. The result is never blank. |
| OrderText.NormalizedTrimmed | app.py:817-818 | A normalised category is non-empty and neither starts nor ends with whitespace. |
| OrderText.NormalizeIdempotent | app.py:817-818 | Normalising a normalised category changes nothing. |
| OrderText.KeyLeTotal | app.py:819 | The order on (category, product) is total. |
| OrderText.KeyLeTransitive | app.py:819 | The order on (category, product) is transitive. |
| OrderText.SortSortsAndPermutes | app.py:819 | The sort returns a permutation of its input, ordered by (category, product). |
| OrderText.OrderRowsSpec | app.py:795-819 | The order view is sorted. It holds exactly the normalised copies of the open rows that pass the role and status filters. It is a permutation of those copies, so it has one row per kept row. |
| OrderText.OrderRowsRespectRole | app.py:803-806 | A sector role never sees a row of another sector in the order view. Every row in the view is open. |
| OrderText.GroupsPartition | app.py:821-826 | The category groups split the rows without losing, adding or reordering any. Every group is non-empty and all its rows carry its key. |
| OrderText.GroupKeysDistinct | app.py:821-826 | On rows sorted by category, no category key heads two groups. |
| OrderText.OrderGroupKeysDistinct | app.py:795-826 | In the order view itself, no category key heads two groups. |
| OrderText.NormalizedInCategorias | app.py:817-818 | Under the corrected fallback "Otros", a category picked from the form (`CATEGORIAS`, app.py:170), or none at all, normalises to one of the form's categories. |
| OrderText.OrderHeadingsOnce | app.py:817-826 | Under the corrected fallback "Otros": when every stored category comes from the form or is missing, and the upper-casing tells the form's categories apart, no heading is written twice. |
| OrderTextAsWritten.UpperAsciiSeparatesCategorias | app.py:823 | Upper-casing maps no two of the form's categories (app.py:170) to the same heading. |
| OrderTextAsWritten.OtrosHeadingRepeated | app.py:817-826 | As written, a kept row without a category and a kept row under "Otros" give a message of eight lines whose lines 2 and 5 are both "OTROS". |
| OrderTextAsWritten.OtrosPairExists | app.py:803-810 | Such a pair exists: a row with no category and one under the form's "Otros", both kept for Admin. |
| OrderText.BuildBlock | app.py:823-826 | The inner loop produces the upper-cased heading, one item line per row and a blank line. |
| OrderText.BuildOrderLines | app.py:821-826 | The outer loop produces the header, a blank line, and then one block per group. |
| OrderText.BuildOrderText | app.py:821-828 | The message is those lines joined by newlines and stripped. |
| OrderText.OrderLinesShape | app.py:821-826 | The line list has 2 + 2·(number of groups) + (number of rows) lines. It starts with `PEDIDO {date}` and a blank line. |
| OrderText.MessageStartsWithHeader | app.py:821-828 | For a non-empty order, the message starts with the header line followed by a blank line. It neither starts nor ends with whitespace. |
| Store.FindShortage | app.py:743-780 | The lookup of a row by id gives a row with that id, or None exactly when no row has that id. |
| Store.FirstLowerMatch | app.py:1112-1115 | The edit's case-insensitive lookup returns the first product whose lower-cased name equals the new one, or None when there is none. |
| Store.DuplicateGuardExact | app.py:1111-1118 | When no two products share a lower-cased name, the edit is refused exactly when another product has the new name, ignoring case. |
| Store.CountNamed | app.py:1182-1186 | The count equals the number of shortages that name the product. It is positive exactly when some shortage names it. |
| Store.WithStatusCounts | app.py:666-678 | A bulk status update changes no field but the status. The number of rows in the new status grows by exactly the listed rows that were not in it yet. |
| Store.RenamedCounts | app.py:1141-1155 | After a rename to a different name, no row keeps the old name. The rows under the new name are the old rows under either name, so the delete guard's count adds up. |
| Store.IdsWithStatus | app.py:667-670 | An id is collected exactly when some row of the view has it and is in the given status. There are no more ids than rows. |
| Store.IdsWithStatusDescending | app.py:667-675 | From a view whose ids strictly decrease, as `ORDER BY id DESC` lists it, the ids collected strictly decrease too. So each row is updated and logged once, newest first. |
| Store.MasterUpsertedSpec | app.py:428-471 | An unknown name adds exactly one active product with the given fields. A known name keeps its id, name, category, active flag and creation time. Other products are unchanged. |
| Store.MergeSpec | app.py:559-607 | A submission merges exactly when an open match exists. A merge adds the quantity (a null quantity counts as 0) to the match with the highest id and changes no other row. Otherwise a Pendiente row with a fresh id is appended. No id changes. |
| Store.MergeKeepsValid | app.py:576-607 | A submission of a non-negative quantity keeps the shortage table valid and loses no id. |
| Store.ReceiveAllRows | app.py:666-678 | The bulk receive touches exactly the rows of the filtered list view that are in Pedido. |
| Store.MarkPendingRows | app.py:888-899 | "Pend→Pedido" touches exactly the Pendiente rows of the order view. |
| Store.OrderRowsFromTable | app.py:861-883 | Every row copied into an order refers to a stored shortage. |
| Store.Database.constructor | app.py:29-98 | The tables start empty and valid. |
| Store.Database.LogMovement | app.py:346-359 | Appends one movement with the session's user and role and the next id, and changes nothing else. |
| Store.Database.UpsertProduct | app.py:428-471 | A blank name writes nothing and gives back the caller's category. Otherwise the master is upserted as `MasterUpserted` describes and the effective category is returned. |
| Store.Database.MergeOrInsert | app.py:559-607 | The shortage table and its counter become what `Merge` gives. |
| Store.Database.Submit | app.py:547-610 | A blank product writes nothing. Otherwise the trimmed product is upserted into the master, then merged or inserted with the effective category and the trimmed supplier and notes. No movement is written, and the tables stay valid. |
| Store.Database.PressButton | app.py:743-780 | For an enabled button on a row the role sees, the row's status is set to the button's target and one CAMBIO_ESTADO movement records the old and new status. In every other case nothing is written. |
| Store.Database.LogEach | app.py:674-676 | Appends one movement per id, in order. |
| Store.Database.ReceiveAll | app.py:666-678 | Exactly the Pedido rows of the filtered view become Recibido, with one RECIBIR_TODO movement each in view order. Every other row is unchanged. |
| Store.Database.MarkPendingOrdered | app.py:888-899 | Exactly the Pendiente rows of the order view become Pedido. No movement is written. |
| Store.Database.CopyItems | app.py:861-883 | Appends one order item per row of the view, each under the order id. |
| Store.Database.InsertOrder | app.py:845-883 | Appends one order holding the message, then the order's items. |
| Store.Database.SaveOrder | app.py:845-885 | An empty view writes nothing. Otherwise one order is saved with the comma-joined included statuses and the order message, together with one item per row of the view. The view files a row without a category under "OTROS", as the code does. |
| Store.Database.EditProduct | app.py:1105-1158 | Checks, in order, for a missing product, a blank name, a case-insensitive clash with another product and an exact name clash; each of these writes nothing. Otherwise the product is updated and the rows of its old name are rewritten. |
| Store.Database.DeleteProduct | app.py:1167-1196 | Only Admin may delete. A product that some shortage still names is refused with the count. Otherwise exactly that product is removed. |

## Left out

- The Streamlit user interface is not modelled: widgets, tabs, reruns, session-state plumbing, messages and logout. Each button press is one method call.
- The SQLAlchemy engine, the connection and the DDL are not modelled (app.py:29-98). The schema appears only through the table invariants: unique and increasing ids, and a unique, non-empty product name.
- Backup and restore of the tables to and from files are not modelled, because they are file I/O.
- The time zone and the date formatting are left out. Clock readings and the date strings are parameters.
- `str.upper()`, SQL `lower()` and Python's `:g` number formatting are function parameters, not definitions.
- The page reads and then writes in separate statements. The model makes each action atomic, so two users acting at once are not modelled.
- The free-text "contains" filters of the list view are one abstract predicate, `search`. The list view has no date filter.
- The date range of the orders history tab (app.py:916-924) is not modelled, because that tab only reads saved orders.
- Floating-point quantities are modelled as `real`, and a null quantity as 0 everywhere.
- OrderText.BuildOrderLines and Store.Database.CopyItems: a null quantity in a column that also holds numbers arrives from pandas as NaN. NaN is truthy, so `or 0` keeps it. The message then shows `xnan` (app.py:825) and the item copy stores NaN (app.py:876). The model writes 0 in both. The merge (app.py:578) reads a single-row frame, where a null stays `None` and becomes 0 as modelled.
- OrderText.Sort keeps rows with an equal (category, product) key in id order. The two-column `sort_values` is a stable lexsort, so the real message keeps such ties in the order of the SQL `ORDER BY categoria, producto` (app.py:800). That order depends on the database's collation, which the model does not know.
- Store.FirstLowerMatch: the edit's lookup has `LIMIT 1` and no `ORDER BY`. It is modelled as the first match in table order.
- Store.Database.EditProduct: a rename that passes the case-insensitive check but hits the case-sensitive UNIQUE constraint raises a database error in the app. The model returns `UniqueViolation` and writes nothing.
- Store.DuplicateGuardExact holds only when product names are unique ignoring case. `upsert_producto` compares names case-sensitively, so the master can hold names that differ only in case, and for those the guard can look at a different row.
- A restore from backup could write status strings other than the four the page uses. The model's `Status` has only those four.
- Store.Database.PressButton: the page offers buttons only for rows it has just listed. The model also covers an id with no row (`NoSuchRow`) and a row the role does not see (`Unavailable`), and writes nothing in either case.
- Ids are unbounded naturals. The 64-bit limit of `bigserial` is not modelled.

## Findings

| source | as written | input that shows it | evidently intended | confidence | as-written member | corrected member |
|---|---|---|---|---|---|---|
| app.py:818 | A null or blank category is filed under "OTROS". The form's own category (app.py:170) is spelt "Otros", a different groupby key, and both upper-case (app.py:823) to the heading OTROS. | One open row with no category and one open row under "Otros", seen by Admin: the message has two groups, both headed OTROS (lines 2 and 5). | One OTROS heading holding both rows, as for every other category of the form. | not executed | OrderTextAsWritten.OtrosHeadingRepeated | OrderText.OrderHeadingsOnce |
