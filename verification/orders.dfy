/** Orders on the customer page: the payload `speichereBestellung` builds,
    the create / edit / archive lifecycle of an order document, the product
    cache the page keeps, and the active-order total of the listing. */
module Orders {
  import opened Wrappers
  import opened Text
  import opened Money
  import opened OptionSchema
  import opened Selection
  import opened Pricing
  import Quantity
  import Catalog

  /** The device id a browser keeps in local storage; only compared for
      equality. */
  type DeviceId = string

  /** The order form at submission: selected product id, checked option
      inputs, and the raw text of the quantity, comment and name fields. */
  datatype OrderForm = OrderForm(
    produktAuswahl: string,
    optionen: RawSelection,
    mengeText: string,
    kommentarText: string,
    bestellerNameText: string)

  /** The fields a submission writes (`bestellungPayload`); amounts in
      cents. */
  datatype OrderPayload = OrderPayload(
    bestellerName: string,
    produktId: string,
    produktNameSnapshot: string,
    produktPreisBruttoSnapshot: Option<int>,
    produktWaehrungSnapshot: string,
    produktOptionenSnapshot: seq<OptionDetail>,
    optionenAuswahl: seq<SelectionEntry>,
    menge: int,
    kommentar: Option<string>,
    geraeteId: DeviceId,
    einzelpreisBerechnet: int,
    gesamtpreisBerechnet: int)

  datatype SubmitError = NoProductSelected | ProductUnavailable

  /** The page's product cache, keyed by document id. */
  type ProductCache = map<string, ProductDoc>

  // ---------------------------------------------------------------------
  // Product cache

  datatype ProductEntry = ProductEntry(id: string, doc: ProductDoc)

  /** A product document is listed unless `produktAktiv` is exactly false. */
  predicate Listable(p: ProductDoc) {
    p.produktAktiv != Some(false)
  }

  /** The cache rebuilt from a full snapshot of the product collection:
      inactive products are skipped, a later entry with the same id wins. */
  function BuildCache(docs: seq<ProductEntry>): (c: ProductCache)
    ensures forall id :: id in c ==> Listable(c[id])
    ensures forall i :: 0 <= i < |docs| && Listable(docs[i].doc) ==> docs[i].id in c
    ensures forall id :: id in c ==> exists i :: 0 <= i < |docs| && docs[i].id == id && docs[i].doc == c[id]
  {
    if |docs| == 0 then map[]
    else
      var init := docs[..|docs| - 1];
      var c := BuildCache(init);
      var last := docs[|docs| - 1];
      assert forall i :: 0 <= i < |init| ==> docs[i] == init[i];
      if Listable(last.doc) then c[last.id := last.doc] else c
  }

  /** The validated product as the order page reads it back. */
  function StoredView(p: Catalog.Product): ProductDoc {
    ProductDoc(p.produktName, Some(p.produktPreisBrutto as int), Some(p.waehrungCode),
               Some(p.produktAktiv), p.optionenDefinition)
  }

  /** A product written by the catalogue always has a price and a currency,
      so the order page's `?? 0` and `|| standardWaehrungCode` fallbacks never
      apply to it; its groups are clean, and it is listed exactly when it is
      active. */
  lemma ValidatedViewNeedsNoDefaults(raw: Option<Catalog.RawProduct>, standard: string)
    requires raw.Some? && TrimmedOrEmpty(raw.value.produktName) != ""
    requires raw.value.produktPreisBrutto.Finite? && raw.value.produktPreisBrutto.value.mantissa >= 0
    ensures var p := Catalog.ValidateProduct(raw).value;
            var v := StoredView(p);
            && v.produktPreisBrutto == Some(p.produktPreisBrutto as int)
            && SnapshotCurrency(v, standard) == p.waehrungCode
            && (v.optionenDefinition.Some? ==> IsClean(v.optionenDefinition.value))
            && (Listable(v) <==> p.produktAktiv)
  {
  }

  // ---------------------------------------------------------------------
  // Submission

  /** The payload of `speichereBestellung`: fails before anything is
      written when no product is selected or the selected one is not in the
      cache; otherwise resolves the checked options against the cached
      product's schema and prices them. Unit and total pass through
      `Number(x.toFixed(2))`, which keeps whole cents. */
  function BuildPayload(form: OrderForm, cache: ProductCache, device: DeviceId, standard: string)
    : (r: Result<OrderPayload, SubmitError>)
    ensures form.produktAuswahl == "" ==> r == Failure(NoProductSelected)
    ensures form.produktAuswahl != "" && form.produktAuswahl !in cache ==> r == Failure(ProductUnavailable)
    ensures r.Success? <==> form.produktAuswahl != "" && form.produktAuswahl in cache
    ensures r.Success? ==>
              && form.produktAuswahl in cache
              && var p := cache[form.produktAuswahl];
              && var res := ResolveSelection(p.optionenDefinition, form.optionen);
              && var pay := r.value;
              && pay.produktId == form.produktAuswahl
              && pay.produktNameSnapshot == p.produktName
              && pay.produktPreisBruttoSnapshot == p.produktPreisBrutto
              && pay.produktWaehrungSnapshot == SnapshotCurrency(p, standard)
              && pay.produktOptionenSnapshot == res.details
              && pay.optionenAuswahl == res.auswahl
              && pay.menge == Quantity.Quantity(form.mengeText)
              && pay.menge != 0
              && pay.einzelpreisBerechnet == p.produktPreisBrutto.GetOr(0) + SumOptionDeltas(res.details)
              && pay.gesamtpreisBerechnet == pay.einzelpreisBerechnet * pay.menge
              && pay.geraeteId == device
              && pay.bestellerName == Trim(form.bestellerNameText)
              && pay.kommentar == Catalog.TrimmedOrNull(Some(form.kommentarText))
  {
    if form.produktAuswahl == "" then Failure(NoProductSelected)
    else if form.produktAuswahl !in cache then Failure(ProductUnavailable)
    else
      var p := cache[form.produktAuswahl];
      var res := ResolveSelection(p.optionenDefinition, form.optionen);
      var menge := Quantity.Quantity(form.mengeText);
      var snap := PriceSnap(p, res.details, menge, standard);
      Round2Cents(snap.einzelpreis);
      Round2Cents(snap.gesamtpreis);
      Success(OrderPayload(
        Trim(form.bestellerNameText),
        form.produktAuswahl,
        p.produktName,
        p.produktPreisBrutto,
        snap.waehrung,
        res.details,
        res.auswahl,
        menge,
        Catalog.TrimmedOrNull(Some(form.kommentarText)),
        device,
        Round2(FromCents(snap.einzelpreis)),
        Round2(FromCents(snap.gesamtpreis))))
  }

  /** An inactive product never reaches the cache, so it cannot be ordered. */
  lemma InactiveProductCannotBeOrdered(docs: seq<ProductEntry>, form: OrderForm, device: DeviceId, standard: string)
    requires form.produktAuswahl != ""
    requires forall i :: 0 <= i < |docs| && docs[i].id == form.produktAuswahl ==> !Listable(docs[i].doc)
    ensures BuildPayload(form, BuildCache(docs), device, standard) == Failure(ProductUnavailable)
  {
  }

  // ---------------------------------------------------------------------
  // Order documents

  /** An order document: the last payload written plus the lifecycle
      fields that only create and archive write. */
  datatype OrderRecord = OrderRecord(
    daten: OrderPayload,
    archiviert: bool,
    erstelltAm: Catalog.Timestamp,
    aktualisiertAm: Catalog.Timestamp,
    archiviertAm: Option<Catalog.Timestamp>)

  type OrderStore = map<string, OrderRecord>

  /** Why a submission, edit or archive did not write. `WriteRejected` is
      the store's refusal of the payload, which the page reports as
      "Speichern fehlgeschlagen". */
  datatype OrderError = SubmitFailed(reason: SubmitError) | WriteRejected | UnknownOrder | NotOwner

  /** The order page offers "edit" and "delete" on a card only to the device
      that wrote the order. */
  predicate OfferedTo(r: OrderRecord, device: DeviceId) {
    r.daten.geraeteId == device
  }

  /** The selected product is cached and has a stored price. */
  predicate PricedSelection(form: OrderForm, cache: ProductCache) {
    form.produktAuswahl != "" && form.produktAuswahl in cache && cache[form.produktAuswahl].produktPreisBrutto.Some?
  }

  /** The web SDK, set up by `getFirestore` with its default settings,
      refuses a document holding an `undefined` field. The one field of the
      payload that can be undefined is the price snapshot, for a cached
      product without `produktPreisBrutto`. */
  predicate StoreAccepts(pay: OrderPayload) {
    pay.produktPreisBruttoSnapshot.Some?
  }

  /** Submission of a new order: a fresh document, not archived, created and
      updated now. `newId` is the id the store assigns. */
  function CreateOrder(store: OrderStore, newId: string, form: OrderForm, cache: ProductCache,
                       device: DeviceId, standard: string, now: Catalog.Timestamp): (r: Result<OrderStore, OrderError>)
    requires newId !in store
    ensures r.Success? <==> PricedSelection(form, cache)
    ensures BuildPayload(form, cache, device, standard).Failure?
            ==> r == Failure(SubmitFailed(BuildPayload(form, cache, device, standard).error))
    ensures BuildPayload(form, cache, device, standard).Success? && r.Failure? ==> r == Failure(WriteRejected)
    ensures r.Success? ==>
              && newId in r.value
              && r.value[newId].daten == BuildPayload(form, cache, device, standard).value
              && !r.value[newId].archiviert
              && r.value[newId].erstelltAm == now
              && r.value[newId].aktualisiertAm == now
              && r.value[newId].archiviertAm.None?
              && r.value.Keys == store.Keys + {newId}
              && forall k :: k in store ==> r.value[k] == store[k]
  {
    var pay := BuildPayload(form, cache, device, standard);
    if pay.Failure? then Failure(SubmitFailed(pay.error))
    else if !StoreAccepts(pay.value) then Failure(WriteRejected)
    else Success(store[newId := OrderRecord(pay.value, false, now, now, None)])
  }

  /** Submission while editing `id`. Edit mode is only entered from a card
      offered to this device; the payload is then built (and may abort, as
      for a new order) before the update. The SDK refuses an undefined
      field before it contacts the store, and the update fails on a
      document that no longer exists. The payload is rebuilt from the
      current cache and replaces the old one, while `archiviert`,
      `erstelltAm` and `archiviertAm` are not part of it and stay as they
      were. */
  function EditOrder(store: OrderStore, id: string, form: OrderForm, cache: ProductCache,
                     device: DeviceId, standard: string, now: Catalog.Timestamp): (r: Result<OrderStore, OrderError>)
    ensures id in store && !OfferedTo(store[id], device) ==> r == Failure(NotOwner)
    ensures (id !in store || OfferedTo(store[id], device)) && BuildPayload(form, cache, device, standard).Failure?
            ==> r == Failure(SubmitFailed(BuildPayload(form, cache, device, standard).error))
    ensures (id !in store || OfferedTo(store[id], device)) && BuildPayload(form, cache, device, standard).Success?
              && !PricedSelection(form, cache)
            ==> r == Failure(WriteRejected)
    ensures id !in store && PricedSelection(form, cache) ==> r == Failure(UnknownOrder)
    ensures r.Success? <==> id in store && OfferedTo(store[id], device) && PricedSelection(form, cache)
    ensures r.Success? ==>
              && id in r.value
              && r.value[id].daten == BuildPayload(form, cache, device, standard).value
              && r.value[id].archiviert == store[id].archiviert
              && r.value[id].erstelltAm == store[id].erstelltAm
              && r.value[id].archiviertAm == store[id].archiviertAm
              && r.value[id].aktualisiertAm == now
              && r.value.Keys == store.Keys
              && forall k :: k in store && k != id ==> r.value[k] == store[k]
  {
    if id in store && !OfferedTo(store[id], device) then Failure(NotOwner)
    else
      var pay := BuildPayload(form, cache, device, standard);
      if pay.Failure? then Failure(SubmitFailed(pay.error))
      else if !StoreAccepts(pay.value) then Failure(WriteRejected)
      else if id !in store then Failure(UnknownOrder)
      else Success(store[id := store[id].(daten := pay.value, aktualisiertAm := now)])
  }

  /** A product the catalogue wrote always has a price, so ordering it
      from a cache built from the collection is never refused by the
      store. */
  lemma CatalogProductsCanBeOrdered(store: OrderStore, newId: string, form: OrderForm, cache: ProductCache,
                                   raw: Option<Catalog.RawProduct>, device: DeviceId, standard: string,
                                   now: Catalog.Timestamp)
    requires newId !in store
    requires raw.Some? && TrimmedOrEmpty(raw.value.produktName) != ""
    requires raw.value.produktPreisBrutto.Finite? && raw.value.produktPreisBrutto.value.mantissa >= 0
    requires form.produktAuswahl != ""
    ensures var c := cache[form.produktAuswahl := StoredView(Catalog.ValidateProduct(raw).value)];
            CreateOrder(store, newId, form, c, device, standard, now).Success?
  {
    ValidatedViewNeedsNoDefaults(raw, standard);
  }

  /** "Löschen" on an own card: a soft delete that sets `archiviert` and
      stamps the archive and update times; nothing else changes. */
  function ArchiveOrder(store: OrderStore, id: string, device: DeviceId, now: Catalog.Timestamp): (r: Result<OrderStore, OrderError>)
    ensures id !in store ==> r == Failure(UnknownOrder)
    ensures id in store && !OfferedTo(store[id], device) ==> r == Failure(NotOwner)
    ensures r.Success? <==> id in store && OfferedTo(store[id], device)
    ensures r.Success? ==>
              && id in r.value
              && r.value[id].archiviert
              && r.value[id].daten == store[id].daten
              && r.value[id].erstelltAm == store[id].erstelltAm
              && r.value[id].archiviertAm == Some(now)
              && r.value[id].aktualisiertAm == now
              && r.value.Keys == store.Keys
              && forall k :: k in store && k != id ==> r.value[k] == store[k]
  {
    if id !in store then Failure(UnknownOrder)
    else if !OfferedTo(store[id], device) then Failure(NotOwner)
    else Success(store[id := store[id].(archiviert := true, archiviertAm := Some(now), aktualisiertAm := now)])
  }

  /** Archiving twice is harmless: it succeeds again and the order stays
      archived with the same content. */
  lemma ArchiveTwice(store: OrderStore, id: string, device: DeviceId, t1: Catalog.Timestamp, t2: Catalog.Timestamp)
    requires ArchiveOrder(store, id, device, t1).Success?
    ensures var once := ArchiveOrder(store, id, device, t1).value;
            var twice := ArchiveOrder(once, id, device, t2);
            && twice.Success?
            && twice.value[id].archiviert
            && twice.value[id].daten == once[id].daten
            && twice.value[id].erstelltAm == once[id].erstelltAm
            && twice.value.Keys == once.Keys
  {
  }

  /** An edit is priced against the product as it is now: what the order
      held before has no influence on whether the edit goes through, why it
      fails, or the new payload. */
  lemma EditIgnoresPreviousSnapshot(store: OrderStore, id: string, previous: OrderPayload, form: OrderForm,
                                    cache: ProductCache, device: DeviceId, standard: string, now: Catalog.Timestamp)
    requires id in store && OfferedTo(store[id], device)
    requires previous.geraeteId == device
    ensures var other := store[id := store[id].(daten := previous)];
            var a := EditOrder(store, id, form, cache, device, standard, now);
            var b := EditOrder(other, id, form, cache, device, standard, now);
            && (a.Success? <==> PricedSelection(form, cache))
            && (a.Failure? ==> b == a)
            && (a.Success? ==> b.Success? && b.value[id].daten == a.value[id].daten)
  {
  }

  /** When the product's base price changes between creation and edit, the
      re-submitted order's unit price moves by the same amount, the quantity
      stays, and the total is again unit price times quantity (so it moves
      by the change per unit, see `Pricing.RepriceShiftsTotal`). */
  lemma EditFollowsPriceChange(form: OrderForm, cache: ProductCache, newPrice: int, device: DeviceId, standard: string)
    requires form.produktAuswahl != "" && form.produktAuswahl in cache
    ensures var p := cache[form.produktAuswahl];
            var now := cache[form.produktAuswahl := p.(produktPreisBrutto := Some(newPrice))];
            var before := BuildPayload(form, cache, device, standard).value;
            var after := BuildPayload(form, now, device, standard);
            && after.Success?
            && after.value.einzelpreisBerechnet == before.einzelpreisBerechnet + (newPrice - p.produktPreisBrutto.GetOr(0))
            && after.value.menge == before.menge
  {
    var id := form.produktAuswahl;
    var p := cache[id];
    var p' := p.(produktPreisBrutto := Some(newPrice));
    var now := cache[id := p'];
    var before := BuildPayload(form, cache, device, standard).value;
    var after := BuildPayload(form, now, device, standard);
    assert id != "" && id in now && now[id] == p';
    assert after.Success?;
    var res := ResolveSelection(p.optionenDefinition, form.optionen);
    assert ResolveSelection(p'.optionenDefinition, form.optionen) == res;
    var d := newPrice - p.produktPreisBrutto.GetOr(0);
    assert after.value.einzelpreisBerechnet == before.einzelpreisBerechnet + d;
    assert after.value.menge == before.menge;
  }

  // ---------------------------------------------------------------------
  // Active total of the listing

  /** What the listing reads of an order document. A document without
      `archiviert` reads as not archived; one without a total as `None`. */
  datatype ListedOrder = ListedOrder(archiviert: bool, gesamtpreisBerechnet: Option<int>)

  function Listed(r: OrderRecord): ListedOrder {
    ListedOrder(r.archiviert, Some(r.daten.gesamtpreisBerechnet))
  }

  /** `bestellung.gesamtpreisBerechnet || 0` */
  function TotalOf(o: ListedOrder): int {
    o.gesamtpreisBerechnet.GetOr(0)
  }

  /** The active orders, in listing order. */
  function ActiveOnly(docs: seq<ListedOrder>): (r: seq<ListedOrder>)
    ensures |r| <= |docs|
  {
    if |docs| == 0 then []
    else
      var rest := ActiveOnly(docs[1..]);
      if docs[0].archiviert then rest else [docs[0]] + rest
  }

  /** The active list holds exactly the orders that are not archived. */
  lemma {:induction false} ActiveOnlyMembers(docs: seq<ListedOrder>)
    ensures forall o :: o in ActiveOnly(docs) <==> o in docs && !o.archiviert
  {
    if |docs| > 0 {
      ActiveOnlyMembers(docs[1..]);
      assert docs == [docs[0]] + docs[1..];
    }
  }

  function SumTotals(docs: seq<ListedOrder>): int {
    if |docs| == 0 then 0 else TotalOf(docs[0]) + SumTotals(docs[1..])
  }

  lemma {:induction false} ActiveOnlyAppend(a: seq<ListedOrder>, b: seq<ListedOrder>)
    ensures ActiveOnly(a + b) == ActiveOnly(a) + ActiveOnly(b)
  {
    if |a| == 0 {
      assert a + b == b;
    } else {
      assert (a + b)[0] == a[0];
      assert (a + b)[1..] == a[1..] + b;
      ActiveOnlyAppend(a[1..], b);
    }
  }

  lemma {:induction false} SumTotalsAppend(a: seq<ListedOrder>, b: seq<ListedOrder>)
    ensures SumTotals(a + b) == SumTotals(a) + SumTotals(b)
  {
    if |a| == 0 {
      assert a + b == b;
    } else {
      assert (a + b)[0] == a[0];
      assert (a + b)[1..] == a[1..] + b;
      SumTotalsAppend(a[1..], b);
    }
  }

  /** The snapshot callback of `beobachteBestellungen`: one pass over the
      listing that skips archived orders, counts the others and adds up
      their totals, a missing total counting as 0. */
  method SummarizeActive(docs: seq<ListedOrder>) returns (gesamtsumme: int, aktiveBestellungen: nat)
    ensures aktiveBestellungen == |ActiveOnly(docs)|
    ensures gesamtsumme == SumTotals(ActiveOnly(docs))
  {
    gesamtsumme := 0;
    aktiveBestellungen := 0;
    var i := 0;
    while i < |docs|
      invariant 0 <= i <= |docs|
      invariant aktiveBestellungen == |ActiveOnly(docs[..i])|
      invariant gesamtsumme == SumTotals(ActiveOnly(docs[..i]))
    {
      var daten := docs[i];
      assert docs[..i + 1] == docs[..i] + [daten];
      ActiveStep(docs[..i], daten);
      if !daten.archiviert {
        aktiveBestellungen := aktiveBestellungen + 1;
        gesamtsumme := gesamtsumme + TotalOf(daten);
      }
      i := i + 1;
    }
    assert docs[..|docs|] == docs;
  }

  /** One more listed order adds itself to the count and its total to the
      sum exactly when it is active. */
  lemma ActiveStep(prefix: seq<ListedOrder>, o: ListedOrder)
    ensures |ActiveOnly(prefix + [o])| == |ActiveOnly(prefix)| + (if o.archiviert then 0 else 1)
    ensures SumTotals(ActiveOnly(prefix + [o])) == SumTotals(ActiveOnly(prefix)) + (if o.archiviert then 0 else TotalOf(o))
  {
    ActiveOnlyAppend(prefix, [o]);
    assert [o][1..] == [];
    SumTotalsAppend(ActiveOnly(prefix), ActiveOnly([o]));
    if o.archiviert {
      assert ActiveOnly([o]) == [];
    } else {
      assert ActiveOnly([o]) == [o];
    }
  }

  /** Archiving an active order in the listing takes it out of the count
      and its total out of the sum. */
  lemma ArchivingLeavesTotals(a: seq<ListedOrder>, o: ListedOrder, b: seq<ListedOrder>)
    requires !o.archiviert
    ensures var before := ActiveOnly(a + [o] + b);
            var after := ActiveOnly(a + [o.(archiviert := true)] + b);
            && |after| == |before| - 1
            && SumTotals(after) == SumTotals(before) - TotalOf(o)
  {
    var o' := o.(archiviert := true);
    ActiveOnlyAppend(a + [o], b);
    ActiveOnlyAppend(a, [o]);
    ActiveOnlyAppend(a + [o'], b);
    ActiveOnlyAppend(a, [o']);
    assert [o][1..] == [] && [o'][1..] == [];
    assert ActiveOnly([o]) == [o];
    assert ActiveOnly([o']) == [];
    SumTotalsAppend(ActiveOnly(a) + [o], ActiveOnly(b));
    SumTotalsAppend(ActiveOnly(a), [o]);
    SumTotalsAppend(ActiveOnly(a) + [], ActiveOnly(b));
    assert ActiveOnly(a) + [] == ActiveOnly(a);
  }

  /** The listing of the store in the order given by `ids`. */
  function Listing(store: OrderStore, ids: seq<string>): seq<ListedOrder>
    requires forall i :: 0 <= i < |ids| ==> ids[i] in store
  {
    seq(|ids|, i requires 0 <= i < |ids| => Listed(store[ids[i]]))
  }

  /** Archiving an active order of the store through `ArchiveOrder` takes
      it out of the listing's count and its total out of the sum, whatever
      the listing order. */
  lemma ArchiveOrderLeavesTotals(store: OrderStore, ids: seq<string>, k: nat, device: DeviceId, now: Catalog.Timestamp)
    requires forall i :: 0 <= i < |ids| ==> ids[i] in store
    requires k < |ids| && forall i :: 0 <= i < |ids| && i != k ==> ids[i] != ids[k]
    requires OfferedTo(store[ids[k]], device) && !store[ids[k]].archiviert
    ensures ArchiveOrder(store, ids[k], device, now).Success?
    ensures var after := ArchiveOrder(store, ids[k], device, now).value;
            var before := Listing(store, ids);
            && (forall i :: 0 <= i < |ids| ==> ids[i] in after)
            && |ActiveOnly(Listing(after, ids))| == |ActiveOnly(before)| - 1
            && SumTotals(ActiveOnly(Listing(after, ids))) == SumTotals(ActiveOnly(before)) - store[ids[k]].daten.gesamtpreisBerechnet
  {
    var after := ArchiveOrder(store, ids[k], device, now).value;
    var before := Listing(store, ids);
    var listed := Listing(after, ids);
    var o := before[k];
    assert before == before[..k] + [o] + before[k + 1..];
    assert listed == before[..k] + [o.(archiviert := true)] + before[k + 1..];
    ArchivingLeavesTotals(before[..k], o, before[k + 1..]);
  }

  // ---------------------------------------------------------------------
  // Worked example

  /** A burger at 9.50 with a single-choice size (+2.00 for "Groß") and
      multiple-choice extras (+0.50 "Sauce", +1.00 "Käse"). */
  const ExampleSize := OptionGroup("size", "Größe", Single, [OptionValue("Klein", 0), OptionValue("Groß", 200)])
  const ExampleExtras := OptionGroup("extras", "Extras", Multi, [OptionValue("Sauce", 50), OptionValue("Käse", 100)])
  const ExampleProduct := ProductDoc("Burger", Some(950), Some("EUR"), Some(true), Some(Schema([ExampleSize, ExampleExtras])))
  const ExampleSelection: RawSelection := map["size" := {"Groß"}, "extras" := {"Sauce", "Käse"}]

  lemma ExampleOptionsCost()
    ensures SumOptionDeltas(ResolveSelection(ExampleProduct.optionenDefinition, ExampleSelection).details) == 350
  {
    var gs := [ExampleSize, ExampleExtras];
    assert ExampleSize.werte[1..][1..] == [];
    assert ExampleExtras.werte[1..][1..] == [];
    assert GroupDelta(ExampleSize, ExampleSelection) == 200;
    assert CheckedValues(ExampleExtras.werte, CheckedLabels(ExampleSelection, "extras")) == ExampleExtras.werte;
    assert GroupDelta(ExampleExtras, ExampleSelection) == 150;
    assert gs[1..][1..] == [];
    assert SumGroupDeltas(gs[1..], ExampleSelection) == 150;
    assert SumGroupDeltas(gs, ExampleSelection) == 350;
    assert ExampleProduct.optionenDefinition.value.gruppen == gs;
    OptionsPriceIsSumOverGroups(gs, ExampleSelection);
  }

  lemma ExampleQuantity()
    ensures Quantity.Quantity("3") == 3
  {
    Quantity.QuantityOfRendered("", 3, "");
    assert "" + (Quantity.IntToString(3) + "") == "3";
  }

  /** Size "Groß", both extras, quantity "3": unit price 13.00, total
      39.00, in the product's currency. */
  lemma PriceExample()
    ensures var form := OrderForm("burger", ExampleSelection, "3", "", "Ada");
            var r := BuildPayload(form, map["burger" := ExampleProduct], "geraet-1", "EUR");
            && r.Success?
            && r.value.menge == 3
            && r.value.einzelpreisBerechnet == 1300
            && r.value.gesamtpreisBerechnet == 3900
            && r.value.produktWaehrungSnapshot == "EUR"
  {
    ExampleOptionsCost();
    ExampleQuantity();
  }
}
