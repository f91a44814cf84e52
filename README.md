# Dima Inventory: stock moves, snapshots and client validators in Dafny

This project models the core of the Dima Inventory warehouse backend and a
few pure helpers of its web client, and proves properties of the model.

- **Stock moves.** A stock move is a header (`INBOUND`, `OUTBOUND` or
  `TRANSFER`, with optional source and destination locations) and a list
  of product lines. `StockMove.save` checks that the locations the type
  needs are present, stores the row, and executes the move when it is
  completed. `execute_move` applies the lines in order against two
  balances: a product's global `quantity_on_hand` and the per-location
  `InventoryLevel` rows. A level row is created lazily from the product's
  global quantity at the moment it is first read
  (`Product.get_inventory_level`). `Product.update_quantity` refuses a
  change that would take the global quantity below zero. Execution stops
  at the first `ValueError` and keeps the writes made before it.
  - `StockMoveModel` states this on values: balances, the header check,
    one line, and the loop over lines.
  - `StockMoveStore.Inventory` is the same code over mutable rows, and
    each method is proved equal to the value-level definition.
  - `StockMoveViews` models the `create`, `update`, `complete` and
    `by_product` endpoints. Each endpoint's atomic block restores every
    row when an error escapes. The error becomes an
    `InsufficientStockException` when its text contains
    "Insufficient stock", and a 400 carrying the message otherwise.
- **Locations.** The `is_active` query filter of the location list, with
  its case-insensitive `true`/`false`.
- **Inventory snapshots.** The snapshot record, its uniqueness, its text
  and its ordering (`SnapshotModel`).
  - `capture_all` records one snapshot per product and active location,
    carrying the product's global quantity.
  - `current_inventory` reports, for each product and location, the
    newest snapshot that passes the optional filters (`SnapshotViews`).
- **Client helpers.**
  - The form validators `required`, `minLength`, `maxLength`, `email` and
    `skuValidator` (`Validators`). Each is compared with an independent
    reading of its regular expression where it has one.
  - The label of a move type (`Formatters`).

The update and creation of lines go through the move serializer, at
`Dima_WMS _Technical_Test/msinventory/inventory/stockmoves/serializers.py`
lines 61-74. `StockMoveSerializer` models the checks that serializer makes
on a request's header fields (lines 30-48): `move_type` must be one of the
three codes, and `validate` looks for the needed locations among the
fields the body supplies, never in the stored move. The checks on a
request's lines are not modelled (see "Left out"). The product helpers are
modelled on `Dima_WMS _Technical_Test/msinventory/inventory/products/models.py`
lines 42-56.

Some rows of the table below cite where these definitions are called or
tested. Each such row and the definition it models:
- `StockMoveModel.UpdateQuantityResult` and
  `StockMoveStore.Inventory.UpdateQuantity` model `update_quantity`, at
  lines 42-47 of the product model.
- `StockMoveModel.GetOrCreateLevel` models `get_inventory_level`, at lines
  49-55 of the product model.
- `StockMoveStore.Inventory.DeleteLines` models the deletion at line 69 of
  the serializer.
- `StockMoveSerializer.Patched` and `StockMoveSerializer.FullPatchPassesSave`
  model the `setattr` loop at lines 64-66 of the serializer.
- `StockMoveSerializer.ValidateSupplied`, `StockMoveSerializer.Validate` and
  `StockMoveSerializer.StoredLocationsNotConsulted` model the field
  declarations and `validate`, at lines 30-48 of the serializer.

Behaviours of the code that the model keeps, although they may surprise:
- An INBOUND line into a location the product has never been stored at
  creates the level from the global quantity *after* the rise. That
  location therefore ends at the old global quantity plus twice the line
  quantity (`StockMoveModel.InboundLine`).
- An OUTBOUND line from a location the product has never been stored at
  creates the level from the global quantity *after* the decrement. The
  location check then compares g - q with q, so the line is refused "at
  location" unless g >= 2q. On success that location ends at g - 2q while
  the global quantity ends at g - q (`StockMoveModel.OutboundLine`).
- A TRANSFER whose source and destination are the same location raises
  that level by the line quantity (`StockMoveModel.TransferToSameLocation`).
- An OUTBOUND line that fails the location check keeps its global
  decrement until the endpoint's atomic block undoes it
  (`StockMoveModel.OutboundLine`).
- `update` never re-executes a move. `completed` is not a field its
  serializer accepts, so its second `execute_move` cannot run
  (`StockMoveViews.Update`).

## Model

| member | source | states |
|---|---|---|
| StockMoveModel.ValidateHeader | msinventory/inventory/stockmoves/models.py:38-45 | no error iff every location the type needs is present; each of the three messages is raised exactly when its own type lacks its location |
| StockMoveModel.ValidationIgnoresExtras | msinventory/inventory/stockmoves/models.py:40-45 | only presence is checked: an INBOUND with a destination or an OUTBOUND with a source passes whatever else it has, and a type outside the three choices always passes |
| StockMoveModel.UpdateQuantityResult | msinventory/inventory/products/tests.py:33-38 | refused with "Insufficient stock" iff the new global quantity would be negative; otherwise only that product's quantity moves, by exactly the delta, and no level changes |
| StockMoveModel.GetOrCreateLevel | msinventory/inventory/stockmoves/models.py:72-73 | returns the stored level, or the current global quantity when there is none; afterwards a row exists for the pair, every earlier row is kept, no other row appears and no global quantity moves |
| StockMoveModel.GetOrCreateIsUnobservable | msinventory/inventory/stockmoves/models.py:59-73 | a read made right after creating a level row sees the same level and global quantity as without the creation |
| StockMoveModel.CreatedRowKeepsItsValue | msinventory/inventory/stockmoves/models.py:57-60 | once the global quantity moves, a created row keeps the value it had when it was created, whereas a pair without a row reports the new global quantity |
| StockMoveModel.InboundLine | msinventory/inventory/stockmoves/models.py:57-61 | the global quantity and the destination level rise by q; a destination row that did not exist ends at the old global quantity plus 2q; a refused global update changes nothing |
| StockMoveModel.OutboundLine | msinventory/inventory/stockmoves/models.py:63-69 | "Insufficient stock" iff the global quantity is below q; "Insufficient stock at location" iff the source level read after the global decrement is below q, and then the decrement stays; on success both balances drop by q and stay >= 0 |
| StockMoveModel.TransferLine | msinventory/inventory/stockmoves/models.py:71-82 | between two locations: fails with "Insufficient stock at source location" iff the source holds less than q; on success the source drops by q and the destination rises by q, so their sum is kept; no global quantity and no other level changes |
| StockMoveModel.TransferToSameLocation | msinventory/inventory/stockmoves/models.py:71-82 | with source equal to destination the destination write wins, so the level ends q higher; no global quantity changes |
| StockMoveModel.UnknownTypeIsNoOp | msinventory/inventory/stockmoves/models.py:56-82 | a move type outside the three choices leaves every balance as it was and raises nothing |
| StockMoveModel.ExecuteLinesAppend | msinventory/inventory/stockmoves/models.py:56-82 | lines run in order: running first + rest is running first and then, unless it failed, rest from the state it left; an error later keeps every earlier write |
| StockMoveModel.ApplyLinePreservesNonNegative | msinventory/inventory/stockmoves/models.py:57-82 | one line never drives a stored balance below zero, whether it succeeds or stops halfway |
| StockMoveModel.ExecuteLinesPreservesNonNegative | msinventory/inventory/stockmoves/models.py:56-82 | a whole execution never drives a stored balance below zero, wherever it stops |
| StockMoveModel.TransferKeepsGlobalQuantities | msinventory/inventory/stockmoves/models.py:71-82 | a TRANSFER of any number of lines never changes any product's global quantity |
| StockMoveStore.Inventory.UpdateQuantity | msinventory/inventory/products/tests.py:33-38 | the in-place update: on refusal nothing is written and the message is returned; otherwise the rows become exactly the value-level result |
| StockMoveStore.Inventory.GetInventoryLevel | msinventory/inventory/stockmoves/models.py:59 | the rows and the returned quantity are exactly those of the value-level get-or-create |
| StockMoveStore.Inventory.ExecuteMove | msinventory/inventory/stockmoves/models.py:52-82 | the loop over the stored lines leaves the rows and the error exactly as the value-level execution of that move's lines; no move row changes |
| StockMoveStore.Inventory.ExecuteLine | msinventory/inventory/stockmoves/models.py:57-82 | one pass of the loop body equals the value-level effect of one line |
| StockMoveStore.Inventory.Save | msinventory/inventory/stockmoves/models.py:38-50 | a refused header writes nothing; otherwise the row is appended (or replaced keeping its lines); a draft changes no balance; a completed move is executed on its stored lines with its partial writes kept on error |
| StockMoveStore.Inventory.AddLine | msinventory/inventory/stockmoves/views.py:26-27 | one line is appended to one stored move; no balance and no other move changes |
| StockMoveStore.Inventory.DeleteLines | msinventory/inventory/stockmoves/views.py:62-67 | the stored move keeps no line; no balance and no other move changes |
| StockMoveStore.Inventory.Rollback | msinventory/inventory/stockmoves/views.py:21-22 | every row is back at the savepoint |
| StockMoveViews.StockErrorsRaised | msinventory/inventory/stockmoves/views.py:39-41 | the three stock messages of execution are raised as InsufficientStockException |
| StockMoveViews.ValidationErrorIsBadRequest | msinventory/inventory/stockmoves/views.py:39-45 | every message of the header check becomes a 400 that carries it |
| StockMoveSerializer.MoveTypeCodesAreChoices | msinventory/inventory/stockmoves/models.py:16-22 | the codes the serializer accepts are exactly the codes of MOVE_TYPES |
| StockMoveSerializer.ValidateSupplied | msinventory/inventory/stockmoves/views.py:62-63 | with no move type supplied nothing is checked; otherwise no error iff the supplied locations, absent ones read as null, are those the type needs; each of the three messages exactly when its own type lacks its location |
| StockMoveSerializer.Validate | msinventory/inventory/stockmoves/views.py:18-19 | accepted iff a move type is supplied (or the update is partial) and a supplied one is one of the three codes that the supplied locations satisfy; a missing type on a full write is "required", an unknown code is refused by name, and a non-field error carries validate's message |
| StockMoveSerializer.CreateCheckCoversSave | msinventory/inventory/stockmoves/views.py:18-24 | on a create the serializer accepts a header iff its code is a choice and save's check accepts it, so save never refuses after it |
| StockMoveSerializer.StoredLocationsNotConsulted | msinventory/inventory/stockmoves/views.py:62-63 | a body supplying a type that needs a location, without that location, is refused whatever the stored move holds |
| StockMoveSerializer.Patched | msinventory/inventory/stockmoves/views.py:62-67 | each supplied header field replaces the stored one and each absent field is kept |
| StockMoveSerializer.FullPatchPassesSave | msinventory/inventory/stockmoves/views.py:62-67 | a body that supplies all three header fields and passes the serializer gives a header save accepts |
| StockMoveSerializer.CreateBodyCheck | msinventory/inventory/stockmoves/views.py:18-19 | a create body is accepted iff it supplies one of the three codes and the header it describes passes save's check; a body without move_type is refused with "This field is required." |
| StockMoveViews.Create | msinventory/inventory/stockmoves/views.py:17-50 | a body the serializer refuses, one without move_type included, is a 400 keyed by its field with nothing written; a failing line leaves every row as before and maps the error; otherwise the move is appended completed with its lines, the balances are the execution of those lines once, and non-negative balances stay non-negative |
| StockMoveViews.Update | msinventory/inventory/stockmoves/views.py:52-88 | no balance ever changes; a missing move is not found; a completed move is refused with its message; then a body the serializer refuses is a 400 keyed by its field and changes nothing; a patched header save refuses changes nothing; otherwise the draft gets the patched header and, when given, exactly the new lines |
| StockMoveViews.Complete | msinventory/inventory/stockmoves/views.py:90-111 | a missing move is not found; a completed move is refused and nothing is re-applied; a draft whose execution fails leaves every row as before; otherwise it becomes completed and the balances are its lines executed once, staying non-negative |
| StockMoveViews.CompleteTwice | msinventory/inventory/stockmoves/views.py:94-104 | completing a draft twice applies its lines once: the second call is refused and the balances are those of one execution |
| StockMoveViews.MovesWithProduct | msinventory/inventory/stockmoves/views.py:122 | a move key is listed iff that move has a line for the product; keys are strictly decreasing, so each move appears once, newest first |
| StockMoveViews.ByProduct | msinventory/inventory/stockmoves/views.py:113-124 | a 400 iff product_id is missing or empty; otherwise exactly the moves having a line for the product |
| Locations.Lower | msinventory/inventory/locations/views.py:14 | same length, every character lowered |
| Locations.LowerMatchesAnyCase | msinventory/inventory/locations/views.py:14-17 | a value lowers to a lower-case word iff it is that word with each letter in either case |
| Locations.WithActive | msinventory/inventory/locations/views.py:15-17 | exactly the locations of the list with that flag, in the list's order |
| Locations.ActivePartition | msinventory/inventory/locations/views.py:15-17 | the active and the inactive filters together hold every location of the list exactly as often as the list |
| Locations.FilterMultiplicity | msinventory/inventory/locations/views.py:15-17 | the filter keeps each location with the flag exactly as often as the list holds it, and no other |
| Locations.GetQueryset | msinventory/inventory/locations/views.py:9-19 | no parameter, or one that is neither true nor false: every location; true or false in any case: the active or the inactive ones; always a subsequence of the list |
| Locations.ActiveInAnyCase | msinventory/inventory/locations/views.py:14-15 | every letter-case spelling of true selects exactly the active locations |
| Locations.InactiveInAnyCase | msinventory/inventory/locations/views.py:16-17 | every letter-case spelling of false selects exactly the inactive locations |
| Decimal.IntRoundTrip | msinventory/inventory/snapshots/models.py:17 | the decimal text of an integer reads back as that integer |
| Decimal.IntToStringInjective | msinventory/inventory/snapshots/models.py:17 | distinct integers print differently |
| SnapshotModel.DescribeDeterminesQuantity | msinventory/inventory/snapshots/models.py:16-17 | two snapshots of the same product name and location code print alike only when their quantities agree |
| SnapshotModel.Insert | msinventory/inventory/snapshots/views.py:52 | inserting into sorted rows keeps them sorted and adds exactly that row |
| SnapshotModel.Sort | msinventory/inventory/snapshots/views.py:52 | the query's ordering returns the same rows, sorted by its key |
| SnapshotModel.DefaultOrderIsNewestFirst | msinventory/inventory/snapshots/models.py:13 | the default ordering returns the same rows with timestamps non-increasing |
| SnapshotViews.BuildCapture | msinventory/inventory/snapshots/views.py:24-34 | the nested loops build, product by product and location by location, exactly the capture of every product at every given location |
| SnapshotViews.CaptureCount | msinventory/inventory/snapshots/views.py:26-37 | a capture holds exactly products x active locations snapshots |
| SnapshotViews.CaptureMembership | msinventory/inventory/snapshots/views.py:26-34 | a snapshot is captured iff it is the capture of some product at some active location |
| SnapshotViews.CapturedSnapshots | msinventory/inventory/snapshots/views.py:22-33 | every captured snapshot is at an active location of the list, carries its product's global quantity, the capture instant and the automated note |
| SnapshotViews.CapturedQuantityIsGlobal | msinventory/inventory/snapshots/views.py:31 | all snapshots of one product in a capture carry the same quantity, whatever the location holds |
| SnapshotViews.ActiveIdsDistinct | msinventory/inventory/snapshots/views.py:23 | filtering locations with distinct ids keeps the ids distinct |
| SnapshotViews.CapturePairsDistinct | msinventory/inventory/snapshots/views.py:26-34 | within one capture no (product, location) pair repeats |
| SnapshotViews.CaptureKeepsUnique | msinventory/inventory/snapshots/models.py:14 | a capture later than every stored snapshot keeps (product, location, timestamp) unique |
| SnapshotViews.SnapshotTable.CaptureAll | msinventory/inventory/snapshots/views.py:19-37 | the table grows by exactly the capture; the count is products x active locations and the message names it; uniqueness is kept for a later instant |
| SnapshotViews.FilterRows | msinventory/inventory/snapshots/views.py:45-49 | a row is kept iff it matches every given id filter |
| SnapshotViews.SeenPairsMembers | msinventory/inventory/snapshots/views.py:54-58 | the seen set holds exactly the pairs of the rows met |
| SnapshotViews.CollectKeys | msinventory/inventory/snapshots/views.py:55-63 | the loop lists exactly the products of the rows met |
| SnapshotViews.CollectNames | msinventory/inventory/snapshots/views.py:59-63 | each product is listed under the name one of its rows carries |
| SnapshotViews.CollectLocations | msinventory/inventory/snapshots/views.py:55-67 | a listed product's locations are exactly the pairs met for it |
| SnapshotViews.CollectFirst | msinventory/inventory/snapshots/views.py:55-67 | each recorded entry is the location name and quantity of the first row of its pair |
| SnapshotViews.FirstIsNewest | msinventory/inventory/snapshots/views.py:52 | in the query's order the first row of a pair has the newest timestamp of the pair |
| SnapshotViews.CurrentInventoryIsNewest | msinventory/inventory/snapshots/views.py:39-69 | the response lists exactly the products with a passing snapshot, at exactly their locations with one, each entry being that of the newest passing snapshot there |
| SnapshotViews.CurrentInventory | msinventory/inventory/snapshots/views.py:39-69 | the endpoint returns exactly the fold of the filtered rows in the query's order, whose meaning the lemma above states |
| SnapshotViews.LatestPerPair | msinventory/inventory/snapshots/views.py:54-67 | the loop with its seen set builds exactly the fold that records the first row of each pair |
| Validators.Utf16Length | mswebclient/src/utils/validators.ts:10 | the length is between the character count and twice it |
| Validators.Utf16LengthOfBmp | mswebclient/src/utils/validators.ts:10-19 | over the Basic Multilingual Plane the length is the character count |
| Validators.Required | mswebclient/src/utils/validators.ts:1-6 | the message iff the value is null, undefined or the empty string; true otherwise |
| Validators.RequiredAcceptsFalsy | mswebclient/src/utils/validators.ts:2 | 0, false and "0" pass |
| Validators.MinLength | mswebclient/src/utils/validators.ts:8-15 | the message naming the bound iff the length is below it; true otherwise |
| Validators.MaxLength | mswebclient/src/utils/validators.ts:17-24 | the message naming the bound iff the length is above it; true otherwise |
| Validators.MaxLengthAcceptsBound | mswebclient/src/utils/validators.ts:19-21 | a value of exactly the bound passes, despite the "less than" wording |
| Validators.LengthMessagesNameBound | mswebclient/src/utils/validators.ts:11-20 | equal messages mean equal bounds |
| Validators.LengthRange | mswebclient/src/utils/validators.ts:8-24 | both validators on one field accept exactly the lengths from min to max |
| Validators.Email | mswebclient/src/utils/validators.ts:26-32 | true or the email message, never anything else |
| Validators.EmailIsPattern | mswebclient/src/utils/validators.ts:27-28 | accepted iff the text is three non-empty runs without white space or '@', joined by '@' and '.' |
| Validators.EmailRejectsTwoAts | mswebclient/src/utils/validators.ts:27-29 | a text with two '@' is refused |
| Validators.Sku | mswebclient/src/utils/validators.ts:48-53 | true or the SKU message, never anything else |
| Validators.SkuIsPattern | mswebclient/src/utils/validators.ts:49 | accepted iff the text is one or more characters from A-Z, 0-9 and '-' |
| Validators.SkuRejectsLowercase | mswebclient/src/utils/validators.ts:49-50 | a lower-case letter anywhere is refused |
| Validators.NeverFalse | mswebclient/src/utils/validators.ts:1-53 | no validator ever answers false |
| Formatters.FormatStockMoveType | mswebclient/src/utils/formatters.ts:20-27 | the result is the input or the input's label, and a changed result is one of the labels |
| Formatters.LabelsMatchServerChoices | mswebclient/src/utils/formatters.ts:21-25 | every code of the server's move types gets the server's label, and the table knows no other code |
| Formatters.FormatIdempotent | mswebclient/src/utils/formatters.ts:20-27 | formatting twice gives the same as formatting once |
| Formatters.FormatIsCaseSensitive | mswebclient/src/utils/formatters.ts:21-26 | a code starting with a lower-case letter is returned unchanged |

## Left out

- Database transactions, locking and concurrency. An endpoint's atomic block is modelled as restoring the saved rows when an error escapes.
- The reorder advisor (msinventory/utils/helpers.py) uses floating-point division, rounding and wall-clock windows. It filters on fields that live on the line rather than the move, so it cannot run as written.
- The `if not self.pk: self.save()` branch of `execute_move`. Every caller saves the move first, so the branch is never taken.
- StockMoveStore.Inventory.ExecuteMove: requires a header that passes the check, since every caller runs `save`'s check first.
- StockMoveModel.OnHand: a product with no row reads as quantity 0, the field's default. Line products exist by foreign key.
- StockMoveViews.Create, StockMoveViews.Update: a serializer refusal is `Invalid(field, message)`. The JSON envelope around it depends on the exception handler configured in the project settings, which are not part of this model.
- StockMoveSerializer.Validate: location ids are taken to name existing locations. The field error for an unknown location key is not modelled.
- StockMoveSerializer.Validate: a request's lines are taken as already valid. The nested line serializer refuses a body with a 400 before any write when a line lacks its product or its quantity, names a product key that does not exist, has a negative quantity ("Ensure this value is greater than or equal to 0.") or a quantity beyond the column's range; none of these is modelled, and `Line.quantity` is a `nat`.
- StockMoveSerializer.Validate: a `move_type` sent as an explicit null is refused with "This field may not be null."; `HeaderPatch` cannot express a null move type, so this refusal is not modelled.
- Integer columns: `quantity_on_hand` and `InventoryLevel.quantity` are `IntegerField` columns of bounded range, while the model's balances are unbounded integers. A sum past the column's range fails in the database rather than with a `ValueError`; `create` and `update` turn that error into a 400 through their `except Exception` clause and `complete` lets it escape as a server error, whereas the model answers as if the write succeeded.
- StockMoveViews.Update: the view's second `execute_move` is not modelled. It runs only for a completed instance, and the update cannot complete a move.
- StockMoveViews.Create, StockMoveViews.Update: `reference` and `description` are free text with no effect on balances and are not modelled.
- Exceptions other than `ValueError` become a 400 with their text in `create` and `update`. Within the model's assumptions (valid lines, integers within range) the modelled code raises only `ValueError`; the database errors that could arise otherwise are the ones listed above.
- Primary keys are indices into the move list. A rolled-back create reuses its key, whereas the database would skip it.
- StockMoveViews.MovesWithProduct: "newest first" is decreasing key order. The source orders moves by `-timestamp` (the move model's `Meta.ordering`), and timestamps can tie; the model takes a later key to mean a later timestamp, and among moves created in the same instant the database may list them in either order.
- Lines of a move run in insertion order. This is an assumption of the model: `self.lines.all()` has no `order_by` and the line model declares no ordering, so the database may return them in another order. The order matters: two INBOUND lines of one product into a location without a level row end at different levels in the two orders.
- SnapshotViews.SnapshotTable.CaptureAll: the timestamp `auto_now_add` would assign is the parameter `now`, one instant shared by every row of a capture. This is a simplification: `bulk_create` runs `pre_save` on each object, so each row reads the clock on its own, and CapturedSnapshots and CaptureKeepsUnique are stated for the shared instant. Uniqueness is proved only when `now` is later than every stored snapshot and the product and location ids are distinct.
- SnapshotViews.CurrentInventory: ids are passed already parsed. An empty query parameter is an absent filter, and a non-numeric one, which the database would reject, is not modelled.
- SnapshotViews.CurrentInventory: among snapshots of one pair with the same timestamp, the database may return any one. The model's sort picks a deterministic one, and the proved property ("a newest") holds for either.
- SnapshotModel.Sort: `order_by('product', 'location')` is modelled as ordering by the related ids. It may instead follow the ordering the location model declares, and that model is not part of this model. The newest snapshot of each pair, and so the response map, is the same under either ordering of the pairs.
- StockMoveViews.ByProduct: the id is passed already parsed. A non-numeric `product_id` makes the database filter raise an error the view does not handle, which `Option<ProductId>` cannot express.
- Locations.LowerChar: `str.lower` is modelled on ASCII letters only; other characters are kept.
- Validators.MinLength, Validators.MaxLength: the bound is an integer; JavaScript's formatting of a fractional or non-finite bound, and the exponent form it uses for a bound of magnitude 10^21 or more, are not modelled.
- `number` and `positiveNumber` rely on JavaScript's `Number()` coercion and NaN. `formatDate`, `formatDateTime` and `formatCurrency` depend on the locale and `Date`.
- Formatters.FormatStockMoveType: the table is a plain three-entry map. Keys inherited from the object prototype, such as "toString", are not modelled.
- Client network and UI code (stores and API wrappers), data loading, admin bootstrap, URL routing and the HTTP mapping of `InsufficientStockException`.
