# DQM-Bestellboard — a Dafny model of ordering, pricing and the product catalogue

DQM-Bestellboard is a small ordering board on Firebase. Administrators maintain a catalogue of products through two
server callables. Each product may carry an option schema: groups of single- or multiple-choice values, each value
with a price delta. Customers pick a product and its options on a web page and submit an order. Their device may
later edit or archive ("delete") that order. The page shows the sum and count of all active orders.

This project models the pure logic inside that plumbing:

- `text.dfy` (`Text`): `trim` with the ECMA-262 whitespace set, and ASCII `toUpperCase`.
- `money.dfy` (`Money`): amounts in integer cents. A finite JavaScript number is an exact decimal. `Number(x.toFixed(2))`
  is rounding to the nearest cent, ties away from zero.
- `schema.dfy` (`OptionSchema`): the untrusted option definition, the cleaned schema, and the server's cleaner
  `bereinigeOptionenDefinition`. The cleaner is modelled twice: exactly as written, and with the nullish-entry crash
  corrected (see Findings).
- `docpath.dfy` (`DocumentPath`): how the Admin SDK's `doc(id)` reads an id as a path below the collection. A "/"
  inside the id can name a subcollection, which `doc` refuses, or a document one level down.
- `catalog.dfy` (`Catalog`): the admin-token decision, `validiereProduktdaten`, and the callables `adminUpsertProdukt`
  and `adminDeleteProdukt` as functions over a map of product documents.
- `selection.dfy` (`Selection`): the option loop of `speichereBestellung`. The checked form inputs are a map from
  group id (the input `name`) to the set of checked value labels.
- `quantity.dfy` (`Quantity`): `Number.parseInt(text, 10) || 1` on strings.
- `pricing.dfy` (`Pricing`): `berechnePreisSnap`.
- `orders.dfy` (`Orders`): the product cache, the order payload, the create / edit / archive lifecycle of an order
  document, the active-order total, and a worked example. The example is a burger at 9.50 with "Groß" (+2.00),
  "Sauce" (+0.50) and "Käse" (+1.00), quantity 3. It costs 13.00 per unit and 39.00 in total.
- `wrappers.dfy` (`Wrappers`): `Option` and `Result`.

Inputs that come from outside are parameters:

- the configured admin token sources;
- the default currency of the page's configuration;
- server timestamps, as opaque integers;
- the id the store assigns to a new document, with the requirement that it is not already used;
- the device id, compared only for equality.

Three behaviours of the code are worth knowing, and the model keeps them:

- The customer name is trimmed, and an empty name is accepted.
- The quantity may be negative: only NaN and 0 fall back to 1.
- The order page reads a group whose `typ` is not exactly "single" as multiple choice, while the server cleans
  unknown types to "single".

## Model

| member | source | states |
|---|---|---|
| Text.Trim | functions/index.js:38-39 | `trim` yields the slice between the leading and the trailing whitespace run; the result is trimmed, and it is empty exactly when the input is all whitespace |
| Text.TrimIdempotent | functions/index.js:38-39 | trimming twice gives the same as trimming once |
| Text.ToUpper | functions/index.js:97-98 | upper-casing keeps the length, maps every character through the ASCII upper-case map, and leaves no lower-case ASCII letter |
| Text.ToUpperIdempotent | functions/index.js:97-98 | upper-casing an upper-cased string changes nothing |
| Money.Round2 | functions/index.js:104 | `Number(x.toFixed(2))` in cents is a nearest whole number of cents, with ties going away from zero; it keeps the sign of the input |
| Money.Round2Cents | web/app.js:262-263 | rounding an amount that is already whole cents leaves it unchanged |
| Catalog.ConfiguredToken | functions/index.js:11-18 | the config token wins when it is non-empty, otherwise the environment token; `failed-precondition` exactly when neither is set |
| Catalog.CheckAdminToken | functions/index.js:20-25 | passes exactly when a token is configured and the submitted token equals it; otherwise `failed-precondition` when none is configured, else `permission-denied`; an empty or missing submission always fails |
| Catalog.ConfigurationCheckedFirst | functions/index.js:20-22 | with no configured token every submission, even the empty one, gets the `failed-precondition` error |
| Catalog.TrimmedOrNull | functions/index.js:88-105 | an optional text field becomes its non-empty trimmed string, or null exactly when it is missing or blank |
| Catalog.CurrencyCode | functions/index.js:97-99 | the currency is the trimmed code upper-cased when it is non-blank, otherwise "EUR"; it is never empty |
| Catalog.ValidateProduct | functions/index.js:74-111 | missing product, blank name, and non-finite or negative price each give their own `invalid-argument` error, in that order; on success the name is trimmed, the price is rounded to the nearest cent, text fields are trimmed or null, `produktAktiv` defaults to true, the currency is normalised and the options are cleaned |
| Catalog.ValidationAccepts | functions/index.js:75-86 | with the corrected cleaner, a product is accepted exactly when it is present, named and priced with a finite non-negative number |
| Catalog.ValidateProductAsWritten | functions/index.js:74-111 | as written, validation fails exactly like the corrected one, and also fails with `internal` exactly when it would succeed but the option definition holds a nullish group or value; otherwise it returns the same product |
| Catalog.NullGroupFailsValidation | functions/index.js:108 | a valid product with `optionenDefinition = {gruppen: [null]}` is accepted without options by the corrected validation and fails with `internal` as written |
| Catalog.UpsertProduct | functions/index.js:113-134 | the call succeeds exactly when the token check and validation pass and the id is blank or one `doc` accepts; a token failure comes before validation, and a validation failure before any write; a refused id gives `internal`; without an id a new document holds the product under the fresh id with its creation time now; with an id the reply names it, a document of the collection holds the product, keeps its creation time, and is the only one that changes, and an id leading below the collection leaves the collection unchanged |
| Catalog.WriteProduct | functions/index.js:119-133 | the write fails with `internal` exactly when a given id is refused as a path; without an id a new document is created under the fresh id; the merge-write through a given id keeps the document's creation time and changes no other document; an id leading below the collection changes nothing in it |
| Catalog.DeleteProduct | functions/index.js:136-147 | the call succeeds exactly when the token check passes, the trimmed id is non-blank and `doc` accepts it; a token failure comes first, a blank id gives `invalid-argument`, and a refused id `internal`; on success the named document of the collection is gone and nothing else changes, and an id leading below the collection removes nothing from it |
| Catalog.SlashedIdsMissTheCollection | functions/index.js:140-146 | with a valid token, deleting "a/b" fails with `internal`, and deleting "a/b/c" is reported as done while the collection is unchanged |
| Catalog.PlainIdWritesItsDocument | functions/index.js:119-126 | a valid product under an ordinary id (no "/", not a refused name) is written to exactly the document of that id |
| DocumentPath.Resolve | functions/index.js:124 | `doc(id)` refuses a path with "//", an even number of segments or a refused segment; one segment names a document of the collection; three or more name a document below it |
| DocumentPath.SegmentsJoin | functions/index.js:124 | the segments of `a + "/" + b` are those of `a` followed by those of `b` |
| DocumentPath.SplitJoin | functions/index.js:124 | the pieces of `split("/")` on `a + "/" + b` are those of `a` followed by those of `b` |
| DocumentPath.NonEmptyAppend | functions/index.js:124 | dropping empty pieces distributes over concatenation |
| DocumentPath.SplitPlain | functions/index.js:124 | a string without "/" is a single piece |
| DocumentPath.SegmentsAreSlashFree | functions/index.js:124 | every segment is non-empty and holds no "/" |
| DocumentPath.PlainIdResolvesToItself | functions/index.js:124 | an id without "/" that is not a refused name names the document of that id in the collection |
| DocumentPath.OneMoreSegmentFlipsTarget | functions/index.js:124 | one segment in front of a document id names a subcollection, which `doc` refuses |
| DocumentPath.TwoMoreSegmentsNest | functions/index.js:124 | two segments in front of a document id name a document below the collection |
| DocumentPath.SlashIdExamples | functions/index.js:124 | "a/b" is refused and "a/b/c" names a document below the collection |
| DocumentPath.EdgeIdExamples | functions/index.js:145 | "a/" names document "a", while "." and "a//b" are refused |
| Catalog.UnauthorizedUpsertIgnoresProduct | functions/index.js:116-118 | with a rejected token the product data makes no difference and the call fails |
| Catalog.ValidateStoredProduct | functions/index.js:74-111 | re-submitting a validated product gives back the same product, so validation is idempotent |
| OptionSchema.TrimmedOrEmpty | functions/index.js:38 | a text field becomes a trimmed string, empty when the field is not a string |
| OptionSchema.DeltaCents | functions/index.js:46-49 | a finite delta becomes the nearest cents; a non-finite one becomes 0 |
| OptionSchema.CleanValue | functions/index.js:44-52 | a value is kept exactly when its trimmed label is non-empty; a kept value has that label and the rounded delta, or 0 |
| OptionSchema.CleanValues | functions/index.js:41-52 | cleaning values keeps only clean values, never adds any, and keeps them all exactly when every one has a label |
| OptionSchema.CleanValuesAppend | functions/index.js:43-52 | cleaning distributes over concatenation of value lists, so value order is preserved |
| OptionSchema.CleanGroup | functions/index.js:37-64 | a group is kept exactly when its trimmed id and trimmed label are non-empty, whatever its values; its `typ` is "multi" exactly when the input says "multi", else "single"; its values are the cleaned values |
| OptionSchema.CleanGroups | functions/index.js:36-65 | the cleaned group list holds only clean groups and is no longer than the input |
| OptionSchema.CleanGroupsEmpty | functions/index.js:65-69 | no group survives exactly when every group is discarded |
| OptionSchema.CleanGroupsAppend | functions/index.js:36-65 | cleaning distributes over concatenation of group lists |
| OptionSchema.CleanKeepsOrder | functions/index.js:36-65 | each group contributes its cleaned form or nothing, in its own place between its neighbours |
| OptionSchema.CleanOptionDefinition | functions/index.js:27-72 | a non-object gives null; the result is null exactly when no group survives; otherwise it is a non-empty list of clean groups |
| OptionSchema.CleanValuesOfClean | functions/index.js:43-52 | a list of clean values written back and cleaned again is unchanged |
| OptionSchema.CleanGroupsOfClean | functions/index.js:36-65 | a list of clean groups written back and cleaned again is unchanged |
| OptionSchema.CleanOfClean | functions/index.js:27-72 | a clean schema is a fixed point of the cleaner |
| OptionSchema.CleanIdempotent | functions/index.js:27-72 | cleaning the stored result of a cleaning gives the same result again, null included |
| OptionSchema.CleanValuesAsWritten | functions/index.js:43-52 | the value loop as written throws exactly when some value entry is nullish, and otherwise agrees with the corrected one |
| OptionSchema.CleanGroupAsWritten | functions/index.js:37-64 | one group as written throws exactly when the group or one of its values is nullish, even when the group would be discarded; otherwise it agrees with the corrected one |
| OptionSchema.CleanGroupsAsWritten | functions/index.js:36-65 | the group loop as written throws exactly when some group throws, and otherwise agrees with the corrected one |
| OptionSchema.CleanOptionDefinitionAsWritten | functions/index.js:27-72 | the cleaner as written fails exactly when some group entry is nullish or holds a nullish value, and otherwise returns what the corrected cleaner returns |
| OptionSchema.NullishEntryThrows | functions/index.js:36-45 | `{gruppen: [null]}` and a discarded group with a null value both throw as written, where the corrected cleaner yields null |
| Selection.FirstChecked | web/app.js:206 | the index found is that of the first value whose input is checked, or the end when none is |
| Selection.CheckedValues | web/app.js:219-227 | the checked values are exactly the group's values whose labels are checked; the first of them is the first checked value |
| Selection.CheckedValuesAppend | web/app.js:221-227 | collecting checked values distributes over concatenation, so they come out in value order, each value as often as it occurs |
| Selection.ResolveGroup | web/app.js:204-238 | a group contributes nothing exactly when none of its inputs is checked; a single-choice group contributes its first checked value and that value's delta; any other group contributes all checked labels in value order and the sum of their deltas; both records carry the group's id, label and type |
| Selection.ResolveGroups | web/app.js:200-239 | at most one entry per group, and the selection entries and the priced details correspond one to one |
| Selection.DetailsComeFromSchema | web/app.js:202-238 | every priced detail names a group of the product's schema, with that group's label and type |
| Selection.ResolveSelection | web/app.js:202 | a product without an option schema resolves to empty lists |
| Selection.ResolveGroupsAppend | web/app.js:203-239 | resolution distributes over concatenation of group lists |
| Selection.ResolveInSchemaOrder | web/app.js:203-239 | each group's contribution appears in the group's place in schema order |
| Selection.ResolveIgnoresUnknownGroups | web/app.js:202-204 | checked inputs under names that are not group ids of the product change nothing |
| Selection.ResolveNothingChecked | web/app.js:203-239 | with nothing checked, nothing is resolved |
| Selection.CleanGroupTypeAgrees | web/app.js:205 | on a group that went through the server's cleaner, the page's "single" test and the server's "multi" test agree |
| Selection.UnknownTypeResolvesAsMulti | web/app.js:205-238 | a group typed "Single" that did not go through the cleaner, with one label checked, is resolved as multiple choice into the list ["Groß"], where the cleaned group yields the single label "Groß"; the delta is the same |
| Pricing.ReduceDeltas | web/app.js:57 | the left fold from an accumulator equals the accumulator plus the sum of the deltas |
| Pricing.SnapshotCurrency | web/app.js:63 | the product's currency when it is non-empty, otherwise the default |
| Pricing.PriceSnap | web/app.js:55-65 | unit price = base price (absent counts as 0) + sum of option deltas; total = unit price × quantity; currency as above |
| Pricing.OptionsPriceIsSumOverGroups | web/app.js:200-249 | the options add to the unit price exactly what each group of the schema contributes |
| Pricing.PlainProductCostsBasePrice | web/app.js:55-59 | a product without options, or an order with nothing checked, costs the base price per unit and base × quantity in total |
| Pricing.RepriceShiftsTotal | web/app.js:55-59 | changing the base price by d moves the unit price by d and the total by d × quantity |
| Quantity.ParseInt | web/app.js:241 | `parseInt` yields NaN exactly when, after whitespace and one optional sign, no digit follows |
| Quantity.ParseIntSkipsWhitespace | web/app.js:241 | leading whitespace does not change what `parseInt` reads |
| Quantity.ParseIntRun | web/app.js:241 | text starting with a digit reads as the value of its leading digit run |
| Quantity.ParseIntMinusRun | web/app.js:241 | the same text after a minus sign reads as the negated value |
| Quantity.ParseIntRendered | web/app.js:241 | the decimal rendering of any integer followed by non-digit text reads back as that integer |
| Quantity.ParseIntReadsRendered | web/app.js:241 | whitespace before and non-digit text after a rendered integer do not change the result |
| Quantity.ParseIntRoundTrip | web/app.js:241 | parsing the decimal rendering of any integer gives that integer back |
| Quantity.Quantity | web/app.js:241 | the quantity is never 0: it is the parsed integer, or 1 when the text does not parse or parses to 0 |
| Quantity.QuantityOfRendered | web/app.js:241 | a rendered non-zero integer with surrounding whitespace and trailing text is taken as the quantity; zero becomes 1 |
| Quantity.QuantityKeepsNegative | web/app.js:241 | "-2" gives quantity -2: the fallback does not make the quantity positive |
| Quantity.QuantityFallsBackToOne | web/app.js:241 | empty, non-numeric and zero entries all give quantity 1 |
| Orders.BuildCache | web/app.js:415-425 | the cache holds every listable product of the snapshot and only listable ones, each taken from an entry of the snapshot |
| Orders.BuildPayload | web/app.js:187-265 | no selected product and a product missing from the cache each abort with their own error, and the payload is built exactly when a cached product is selected; on success every payload field is stated: snapshots of the cached product, the resolved options, the parsed quantity, the trimmed name and comment, unit = base + option deltas, total = unit × quantity |
| Orders.ValidatedViewNeedsNoDefaults | web/app.js:55-65 | a product the catalogue validated always has a price and a currency, so the page's fallbacks do not apply; its groups are clean and it is listed exactly when active |
| Orders.InactiveProductCannotBeOrdered | web/app.js:415-425 | a product whose every snapshot entry is inactive cannot be ordered |
| Orders.CatalogProductsCanBeOrdered | web/app.js:248-279 | ordering a product the catalogue validated is never refused for a missing price |
| Orders.CreateOrder | web/app.js:248-279 | creation succeeds exactly when the selected product is cached and has a price; a payload failure is reported as such, and a missing price makes the store refuse the undefined snapshot; on success exactly one new document appears, not archived, with the payload and both timestamps set to now |
| Orders.EditOrder | web/app.js:187-272 | another device's order is refused; then a payload failure, then the store's refusal of an undefined price snapshot, then a missing order; the edit succeeds exactly on an own, existing order whose selected product is cached with a price; on success only that order changes: its payload is rebuilt, its update time is now, and its archive flag and creation and archive times stay |
| Orders.ArchiveOrder | web/app.js:340-362 | archiving succeeds exactly on an existing order owned by the device; it sets the flag and the archive and update times and changes nothing else |
| Orders.ArchiveOrderLeavesTotals | web/app.js:353-401 | archiving an active own order through the store takes it out of the listing's count and its total out of the sum, whatever the listing order |
| Orders.ArchiveTwice | web/app.js:358-362 | archiving an archived order succeeds again and leaves it archived with the same content |
| Orders.EditIgnoresPreviousSnapshot | web/app.js:248-271 | whether an edit succeeds, why it fails, and the payload it writes do not depend on what the order held before |
| Orders.EditFollowsPriceChange | web/app.js:245-263 | after a base-price change an edit still succeeds, the unit price moves by the change and the quantity stays |
| Orders.ActiveOnlyMembers | web/app.js:392-396 | the orders the listing counts are exactly the ones not archived |
| Orders.SummarizeActive | web/app.js:390-401 | the fold counts exactly the active orders and sums exactly their totals, a missing total counting as 0 |
| Orders.ActiveStep | web/app.js:392-399 | one more order adds 1 to the count and its total to the sum exactly when it is active |
| Orders.ArchivingLeavesTotals | web/app.js:394-399 | archiving an active order lowers the count by one and the sum by that order's total |
| Orders.ExampleOptionsCost | web/app.js:200-239 | "Groß" in the size group and both extras cost 3.50 in options |
| Orders.ExampleQuantity | web/app.js:241 | the text "3" gives quantity 3 |
| Orders.PriceExample | web/app.js:245-263 | the worked example is accepted with quantity 3, unit price 13.00, total 39.00, in EUR |

## Left out

- Firestore and Cloud Functions I/O are not modelled: `onSnapshot`, `addDoc`, `updateDoc`, `set`, `delete`, `httpsCallable`, and the HTTPS transport. A write is a pure update of a map of documents. `serverTimestamp` is an opaque integer parameter. Listing order (`orderBy`) is not modelled: the total does not depend on it.
- Floating point is not modelled. Amounts are exact decimals and integer cents. Binary artefacts of `toFixed` (1.005 is stored as 1.00499… and rounds down) and of adding floats are outside the model.
- `Number.parseFloat` on strings is not modelled. Numeric fields arrive as what it yields: a finite decimal or not finite. The client reads deltas back from the `data-preis-delta` attributes (`dataset.preisDelta`) that hold cleaned cent values, so the model uses the schema's deltas directly.
- `Intl.NumberFormat` formatting (`formatierePreis`) is not modelled: it is display only.
- Text.ToUpper: models `toUpperCase` for ASCII letters only. Unicode case mapping is outside the model.
- DOM rendering and form wiring are not modelled. This covers `optionenFuerProdukt`, `rendereBestellung` markup, `zeigeStatus` and `resetFormular`. The owner gate of web/app.js line 340 is modelled as the `NotOwner` failure of edit and archive.
- `befuellenFormular` and its delayed refill of the form are not modelled. An edit is modelled as a fresh submission from a form whose contents are a parameter.
- Two groups with the same id share input `name`s on the page. The model gives each group only its own values.
- Device-id generation (`crypto.randomUUID`, `Math.random`, `Date.now`, `localStorage`) is not modelled. The device id is a parameter.
- The page's `config.js` (Firebase settings, default currency, locale) is not part of this model. The default currency is a parameter.
- web/admin.js is not modelled: it is admin UI and a `JSON.parse` wrapper. functions/.eslintrc.js is lint configuration.
- Catalog.UpsertProduct: `FieldValue.serverTimestamp()` inside the validated data is represented by the update time of the stored document rather than as a field of the product.
- Orders.EditFollowsPriceChange: states the unit-price shift and the unchanged quantity. The corresponding total shift (by the change times the quantity) is stated separately as `Pricing.RepriceShiftsTotal`.
- Catalog.ValidateProduct: uses the corrected cleaner. For an option definition with a nullish group or value entry, the source throws a TypeError at functions/index.js:108, which the callable reports as `internal`. `Catalog.ValidateProductAsWritten` models that behaviour.
- Catalog.ValidationAccepts: states acceptance for the corrected validation. As written, a present, named and priced product is also refused with `internal` when its option definition holds a nullish entry; see `Catalog.NullGroupFailsValidation`.
- Catalog.UpsertProduct: validates with the corrected cleaner. As written, the source fails with `internal` and writes nothing when the option definition holds a nullish entry.
- Orders.BuildPayload: the page puts each group id unescaped into a `querySelectorAll` selector (web/app.js:204). An id containing `"` or a line break makes the selector throw before the `try` at line 267, so the submission aborts and nothing is written. An id containing `\` selects no inputs. The model's selection is a map from group id to labels and has neither effect.
- Selection.ResolveGroup: two values with the same label in one group are two inputs on the page, and only the ones actually checked count. The model's selection is a set of labels, so it counts every value with a checked label. With "Sauce" +0.50 and "Sauce" +0.70 and one of them checked, the model gives +1.20 where the page gives +0.50 or +0.70.
- The Firebase SDKs are not part of this model; two of their rules are modelled as the code meets them. First, web/app.js:16 uses `getFirestore` with default settings, so `addDoc` and `updateDoc` refuse the `produktPreisBruttoSnapshot: undefined` of a product without a price; `Orders.CreateOrder` and `Orders.EditOrder` fail with `WriteRejected` there. Second, the Admin SDK's `doc(id)` reads the id as a path (`DocumentPath.Resolve`).
- DocumentPath.Resolve: Firestore's 1500-byte limit on document ids and its limits on path depth are not modelled; such ids are treated like any other.
- Firestore security rules are not visible. Whether the store itself enforces the device ownership is outside the model; only the page's gate is modelled.

## Findings

| source | as written | input that shows it | evidently intended | confidence | as-written member | corrected member |
|---|---|---|---|---|---|---|
| functions/index.js:36-45 | the group and value callbacks read `gruppe.id`, `gruppe.werte` and `wert.label` without a null check, so a `null` or `undefined` entry raises a TypeError, and `adminUpsertProdukt` fails with an internal error | `optionenDefinition = {gruppen: [null]}`, or `{gruppen: [{werte: [null]}]}` (a group discarded anyway) | malformed entries are discarded like other unusable groups and values; the definition cleans to null when nothing usable remains | not executed | OptionSchema.CleanOptionDefinitionAsWritten | OptionSchema.CleanOptionDefinition |

`OptionSchema.NullishEntryThrows` exhibits both inputs. `OptionSchema.CleanOptionDefinitionAsWritten` fails exactly on definitions with such an entry and agrees with the corrected cleaner everywhere else. The corrected cleaner is the one validation uses. `Catalog.ValidateProductAsWritten` and `Catalog.NullGroupFailsValidation` carry the crash up to product validation, where it becomes an `internal` error. `OptionSchema.CleanIdempotent` and `OptionSchema.CleanOfClean` are proved about it.
