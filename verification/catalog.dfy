/** The server's admin callables `adminUpsertProdukt` and
    `adminDeleteProdukt`: the admin-token decision, product validation
    (`validiereProduktdaten`) and their effect on the product collection. */
module Catalog {
  import opened Wrappers
  import opened Text
  import opened Money
  import opened OptionSchema
  import opened DocumentPath

  datatype ErrorCode = InvalidArgument | FailedPrecondition | PermissionDenied | Internal

  /** An `HttpsError` as thrown to the caller. */
  datatype HttpsError = HttpsError(code: ErrorCode, message: string)

  const TokenNotConfigured := HttpsError(FailedPrecondition, "Admin-Token ist nicht konfiguriert.")
  const TokenInvalid := HttpsError(PermissionDenied, "Ungültiges Admin-Token.")
  const ProductMissing := HttpsError(InvalidArgument, "Produktdaten fehlen.")
  const NameRequired := HttpsError(InvalidArgument, "Produktname ist erforderlich.")
  const PriceInvalid := HttpsError(InvalidArgument, "Produktpreis muss >= 0 sein.")
  const IdRequired := HttpsError(InvalidArgument, "Produkt-ID ist erforderlich.")
  /** What the callable reports for an exception that is not an `HttpsError`. */
  const InternalError := HttpsError(Internal, "INTERNAL")

  const DefaultCurrency: string := "EUR"

  /** Server time, opaque to this model. */
  type Timestamp = int

  // ---------------------------------------------------------------------
  // Admin token

  /** The two places an expected token may be configured: the functions
      config `admin.token` and the `ADMIN_TOKEN` environment variable. */
  datatype TokenSources = TokenSources(configToken: Option<string>, envToken: Option<string>)

  /** JavaScript truthiness of an optional string. */
  predicate Truthy(s: Option<string>) {
    s.Some? && s.value != ""
  }

  /** `holeAdminTokenKonfiguration`: the config token when it is set and
      non-empty, else the environment token; failing with
      `failed-precondition` when neither is. */
  function ConfiguredToken(src: TokenSources): (r: Result<string, HttpsError>)
    ensures r.Failure? <==> !Truthy(src.configToken) && !Truthy(src.envToken)
    ensures r.Failure? ==> r.error.code == FailedPrecondition
    ensures r.Success? ==> r.value != ""
    ensures r.Success? && Truthy(src.configToken) ==> Some(r.value) == src.configToken
    ensures r.Success? && !Truthy(src.configToken) ==> Some(r.value) == src.envToken
  {
    if Truthy(src.configToken) then Success(src.configToken.value)
    else if Truthy(src.envToken) then Success(src.envToken.value)
    else Failure(TokenNotConfigured)
  }

  /** `pruefeAdminToken`: passes exactly when a token is configured and the
      submitted one is present and equal to it. A non-string submission is
      `None`: it is never strictly equal to a string. */
  function CheckAdminToken(submitted: Option<string>, src: TokenSources): (r: Result<(), HttpsError>)
    ensures r.Success? <==> ConfiguredToken(src).Success? && submitted == Some(ConfiguredToken(src).value)
    ensures r.Failure? ==> r.error.code == (if ConfiguredToken(src).Failure? then FailedPrecondition else PermissionDenied)
    ensures submitted.None? || submitted == Some("") ==> r.Failure?
  {
    var expected := ConfiguredToken(src);
    if expected.Failure? then Failure(expected.error)
    else if !Truthy(submitted) || submitted.value != expected.value then Failure(TokenInvalid)
    else Success(())
  }

  /** A missing configuration is reported as such before any comparison:
      whatever is submitted, even the empty token, yields the same
      `failed-precondition` error. */
  lemma ConfigurationCheckedFirst(src: TokenSources, submitted: Option<string>)
    requires !Truthy(src.configToken) && !Truthy(src.envToken)
    ensures CheckAdminToken(submitted, src) == Failure(TokenNotConfigured)
  {
  }

  // ---------------------------------------------------------------------
  // Product validation

  /** A product as submitted. String fields are `Some` only when they hold a
      string, `produktAktiv` only when it holds a boolean; the price is what
      `parseFloat` makes of its field. */
  datatype RawProduct = RawProduct(
    produktId: Option<string>,
    produktName: Option<string>,
    produktBeschreibung: Option<string>,
    produktPreisBrutto: NumberInput,
    produktKategorie: Option<string>,
    produktAktiv: Option<bool>,
    waehrungCode: Option<string>,
    optionenDefinition: RawDefinition)

  /** A validated product as written to the collection; the price is in
      cents. */
  datatype Product = Product(
    produktName: string,
    produktBeschreibung: Option<string>,
    produktPreisBrutto: nat,
    produktKategorie: Option<string>,
    produktAktiv: bool,
    waehrungCode: string,
    optionenDefinition: Option<Schema>)

  /** `typeof x === "string" ? x.trim() : null`, then `|| null`. */
  function TrimmedOrNull(s: Option<string>): (r: Option<string>)
    ensures r.Some? ==> r.value != "" && IsTrimmed(r.value)
    ensures r.None? <==> TrimmedOrEmpty(s) == ""
  {
    var t := TrimmedOrEmpty(s);
    if t == "" then None else Some(t)
  }

  /** The currency: the trimmed code upper-cased when it is non-blank,
      otherwise "EUR". */
  function CurrencyCode(s: Option<string>): (r: string)
    ensures r != "" && IsTrimmed(r)
    ensures TrimmedOrEmpty(s) == "" ==> r == DefaultCurrency
    ensures TrimmedOrEmpty(s) != "" ==> r == ToUpper(TrimmedOrEmpty(s))
  {
    var t := TrimmedOrEmpty(s);
    if t == "" then DefaultCurrency
    else
      ToUpperKeepsTrimmed(t);
      ToUpper(t)
  }

  /** `validiereProduktdaten`: rejects a missing product, then an empty
      trimmed name, then a non-finite or negative price, each with
      `invalid-argument`; otherwise normalises every field. */
  function ValidateProduct(p: Option<RawProduct>): (r: Result<Product, HttpsError>)
    ensures p.None? ==> r == Failure(ProductMissing)
    ensures p.Some? && TrimmedOrEmpty(p.value.produktName) == "" ==> r == Failure(NameRequired)
    ensures p.Some? && TrimmedOrEmpty(p.value.produktName) != ""
            && (p.value.produktPreisBrutto.NotFinite? || p.value.produktPreisBrutto.value.mantissa < 0)
            ==> r == Failure(PriceInvalid)
    ensures r.Failure? ==> r.error.code == InvalidArgument
    ensures r.Success? ==>
              && p.Some?
              && r.value.produktName != "" && IsTrimmed(r.value.produktName)
              && r.value.produktName == TrimmedOrEmpty(p.value.produktName)
              && p.value.produktPreisBrutto.Finite?
              && NearestCents(r.value.produktPreisBrutto, p.value.produktPreisBrutto.value)
              && r.value.produktBeschreibung == TrimmedOrNull(p.value.produktBeschreibung)
              && r.value.produktKategorie == TrimmedOrNull(p.value.produktKategorie)
              && r.value.produktAktiv == p.value.produktAktiv.GetOr(true)
              && r.value.waehrungCode == CurrencyCode(p.value.waehrungCode)
              && r.value.optionenDefinition == CleanOptionDefinition(p.value.optionenDefinition)
  {
    if p.None? then Failure(ProductMissing)
    else
      var raw := p.value;
      var name := TrimmedOrEmpty(raw.produktName);
      if name == "" then Failure(NameRequired)
      else if raw.produktPreisBrutto.NotFinite? || raw.produktPreisBrutto.value.mantissa < 0 then
        Failure(PriceInvalid)
      else
        Success(Product(
          name,
          TrimmedOrNull(raw.produktBeschreibung),
          Round2(raw.produktPreisBrutto.value),
          TrimmedOrNull(raw.produktKategorie),
          raw.produktAktiv.GetOr(true),
          CurrencyCode(raw.waehrungCode),
          CleanOptionDefinition(raw.optionenDefinition)))
  }

  /** A product is accepted exactly when it is present, named, and priced
      with a finite, non-negative number. */
  lemma ValidationAccepts(p: Option<RawProduct>)
    ensures ValidateProduct(p).Success? <==>
              && p.Some?
              && TrimmedOrEmpty(p.value.produktName) != ""
              && p.value.produktPreisBrutto.Finite?
              && p.value.produktPreisBrutto.value.mantissa >= 0
  {
  }

  /** `validiereProduktdaten` exactly as written: the option definition is
      cleaned last, by `bereinigeOptionenDefinition` as written, so a nullish
      group or value entry in an otherwise valid product raises a TypeError,
      which the callable reports as `internal`. */
  function ValidateProductAsWritten(p: Option<RawProduct>): (r: Result<Product, HttpsError>)
    ensures ValidateProduct(p).Failure? ==> r == ValidateProduct(p)
    ensures ValidateProduct(p).Success? ==>
              (r.Failure? <==> exists g :: g in RawGroups(p.value.optionenDefinition) && GroupThrows(g))
    ensures r.Failure? && ValidateProduct(p).Success? ==> r == Failure(InternalError)
    ensures r.Success? ==> r == ValidateProduct(p)
  {
    var v := ValidateProduct(p);
    if v.Failure? then v
    else
      var cleaned := CleanOptionDefinitionAsWritten(p.value.optionenDefinition);
      if cleaned.Failure? then Failure(InternalError) else v
  }

  /** A present, named, priced product whose option definition is
      `{gruppen: [null]}` passes the corrected validation but fails with
      `internal` as written. */
  lemma NullGroupFailsValidation(name: string, price: nat)
    requires Trim(name) != ""
    ensures var raw := RawProduct(None, Some(name), None, Finite(FromCents(price)), None, None, None,
                                  DefinitionObject(Some([NullishGroup])));
            && ValidateProduct(Some(raw)).Success?
            && ValidateProduct(Some(raw)).value.optionenDefinition.None?
            && ValidateProductAsWritten(Some(raw)) == Failure(InternalError)
  {
    var raw := RawProduct(None, Some(name), None, Finite(FromCents(price)), None, None, None,
                          DefinitionObject(Some([NullishGroup])));
    assert NullishGroup in RawGroups(raw.optionenDefinition);
    NullishEntryThrows();
  }

  // ---------------------------------------------------------------------
  // The callables and the product collection

  /** A product document: the validated fields plus the server timestamps.
      `erstelltAm` is absent on a document first written through an
      explicit id. */
  datatype StoredProduct = StoredProduct(daten: Product, erstelltAm: Option<Timestamp>, aktualisiertAm: Timestamp)

  type Catalog = map<string, StoredProduct>

  datatype UpsertRequest = UpsertRequest(adminToken: Option<string>, produkt: Option<RawProduct>)

  datatype DeleteRequest = DeleteRequest(adminToken: Option<string>, produktId: Option<string>)

  /** What a callable returns on success. */
  datatype Reply = Reply(nachricht: string, produktId: string)

  datatype Written = Written(katalog: Catalog, antwort: Reply)

  /** The trimmed `produkt.produktId` when it is a string, else "": the
      page's id field, which decides between a merge-write and a new
      document. */
  function RequestedId(req: UpsertRequest): string {
    if req.produkt.Some? then TrimmedOrEmpty(req.produkt.value.produktId) else ""
  }

  /** `after` holds `daten`, updated at `now`, under `key`, and agrees with
      `before` on every other key. */
  ghost predicate StoredUnder(before: Catalog, after: Catalog, key: string, daten: Product, now: Timestamp) {
    && key in after
    && after[key].daten == daten
    && after[key].aktualisiertAm == now
    && (forall k :: k != key ==> (k in after <==> k in before))
    && (forall k :: k != key && k in before ==> after[k] == before[k])
  }

  /** `adminUpsertProdukt`: token check, then validation, then a merge-write
      through `doc(id)` for a non-blank trimmed `produktId`, or a new
      document under the store's fresh id `newId` otherwise. An id that
      `doc` refuses fails with `internal`; one that leads below the
      collection writes a document the collection does not hold. */
  function UpsertProduct(cat: Catalog, req: UpsertRequest, src: TokenSources, now: Timestamp, newId: string)
    : (r: Result<Written, HttpsError>)
    requires newId != "" && newId !in cat
    ensures r.Success? <==>
              && CheckAdminToken(req.adminToken, src).Success?
              && ValidateProduct(req.produkt).Success?
              && (RequestedId(req) == "" || !Resolve(RequestedId(req)).Refused?)
    ensures CheckAdminToken(req.adminToken, src).Failure? ==> r == Failure(CheckAdminToken(req.adminToken, src).error)
    ensures CheckAdminToken(req.adminToken, src).Success? && ValidateProduct(req.produkt).Failure?
            ==> r == Failure(ValidateProduct(req.produkt).error)
    ensures r.Failure? && CheckAdminToken(req.adminToken, src).Success? && ValidateProduct(req.produkt).Success?
            ==> r == Failure(InternalError)
    ensures r.Success? && RequestedId(req) == "" ==>
              && r.value.antwort == Reply("Produkt erstellt.", newId)
              && StoredUnder(cat, r.value.katalog, newId, ValidateProduct(req.produkt).value, now)
              && r.value.katalog[newId].erstelltAm == Some(now)
    ensures r.Success? && RequestedId(req) != "" ==>
              r.value.antwort == Reply("Produkt aktualisiert.", RequestedId(req))
    ensures r.Success? && RequestedId(req) != "" && Resolve(RequestedId(req)).InCollection? ==>
              && var key := Resolve(RequestedId(req)).key;
              && StoredUnder(cat, r.value.katalog, key, ValidateProduct(req.produkt).value, now)
              && r.value.katalog[key].erstelltAm == (if key in cat then cat[key].erstelltAm else None)
    ensures r.Success? && RequestedId(req) != "" && Resolve(RequestedId(req)).Nested? ==> r.value.katalog == cat
  {
    var auth := CheckAdminToken(req.adminToken, src);
    if auth.Failure? then Failure(auth.error)
    else
      var valid := ValidateProduct(req.produkt);
      if valid.Failure? then Failure(valid.error)
      else WriteProduct(cat, valid.value, RequestedId(req), now, newId)
  }

  /** The write step of `adminUpsertProdukt`: a merge through `doc(id)`
      that keeps the document's creation time, or a new document under
      `newId` when `id` is blank. */
  function WriteProduct(cat: Catalog, daten: Product, id: string, now: Timestamp, newId: string)
    : (r: Result<Written, HttpsError>)
    requires newId != "" && newId !in cat
    ensures r.Failure? <==> id != "" && Resolve(id).Refused?
    ensures r.Failure? ==> r.error == InternalError
    ensures id == "" ==>
              && r.Success?
              && r.value.antwort == Reply("Produkt erstellt.", newId)
              && StoredUnder(cat, r.value.katalog, newId, daten, now)
              && r.value.katalog[newId].erstelltAm == Some(now)
    ensures id != "" && r.Success? ==> r.value.antwort == Reply("Produkt aktualisiert.", id)
    ensures id != "" && Resolve(id).InCollection? ==>
              && var key := Resolve(id).key;
              && StoredUnder(cat, r.value.katalog, key, daten, now)
              && r.value.katalog[key].erstelltAm == (if key in cat then cat[key].erstelltAm else None)
    ensures id != "" && Resolve(id).Nested? ==> r.value.katalog == cat
  {
    if id == "" then
      Success(Written(cat[newId := StoredProduct(daten, Some(now), now)], Reply("Produkt erstellt.", newId)))
    else
      match Resolve(id)
      case Refused => Failure(InternalError)
      case Nested => Success(Written(cat, Reply("Produkt aktualisiert.", id)))
      case InCollection(key) =>
        var created := if key in cat then cat[key].erstelltAm else None;
        Success(Written(cat[key := StoredProduct(daten, created, now)], Reply("Produkt aktualisiert.", id)))
  }

  /** `adminDeleteProdukt`: token check, then a non-blank id, then removal
      through `doc(id)` (deleting a document that does not exist succeeds
      too). An id that `doc` refuses fails with `internal`; one that leads
      below the collection removes nothing from it. */
  function DeleteProduct(cat: Catalog, req: DeleteRequest, src: TokenSources): (r: Result<Written, HttpsError>)
    ensures r.Success? <==>
              && CheckAdminToken(req.adminToken, src).Success?
              && TrimmedOrEmpty(req.produktId) != ""
              && !Resolve(TrimmedOrEmpty(req.produktId)).Refused?
    ensures CheckAdminToken(req.adminToken, src).Failure? ==> r == Failure(CheckAdminToken(req.adminToken, src).error)
    ensures CheckAdminToken(req.adminToken, src).Success? && TrimmedOrEmpty(req.produktId) == ""
            ==> r == Failure(IdRequired)
    ensures CheckAdminToken(req.adminToken, src).Success? && TrimmedOrEmpty(req.produktId) != ""
              && Resolve(TrimmedOrEmpty(req.produktId)).Refused?
            ==> r == Failure(InternalError)
    ensures r.Success? ==> r.value.antwort == Reply("Produkt gelöscht.", TrimmedOrEmpty(req.produktId))
    ensures r.Success? && Resolve(TrimmedOrEmpty(req.produktId)).InCollection? ==>
              && var key := Resolve(TrimmedOrEmpty(req.produktId)).key;
              && key !in r.value.katalog
              && forall k :: k != key ==> (k in r.value.katalog <==> k in cat) && (k in cat ==> r.value.katalog[k] == cat[k])
    ensures r.Success? && Resolve(TrimmedOrEmpty(req.produktId)).Nested? ==> r.value.katalog == cat
  {
    var auth := CheckAdminToken(req.adminToken, src);
    if auth.Failure? then Failure(auth.error)
    else
      var id := TrimmedOrEmpty(req.produktId);
      if id == "" then Failure(IdRequired)
      else
        match Resolve(id)
        case Refused => Failure(InternalError)
        case Nested => Success(Written(cat, Reply("Produkt gelöscht.", id)))
        case InCollection(key) => Success(Written(cat - {key}, Reply("Produkt gelöscht.", id)))
  }

  /** An id with "/" inside is a path: "a/b" names a subcollection, so the
      call fails with `internal`, and "a/b/c" is accepted but reaches a
      document below the collection, which the collection does not show. */
  lemma SlashedIdsMissTheCollection(cat: Catalog, token: Option<string>, src: TokenSources)
    requires CheckAdminToken(token, src).Success?
    ensures DeleteProduct(cat, DeleteRequest(token, Some("a/b")), src) == Failure(InternalError)
    ensures DeleteProduct(cat, DeleteRequest(token, Some("a/b/c")), src)
            == Success(Written(cat, Reply("Produkt gelöscht.", "a/b/c")))
  {
    SlashIdExamples();
    assert TrimmedOrEmpty(Some("a/b")) == "a/b" by {
      assert IsTrimmed("a/b");
      TrimTrimmed("a/b");
    }
    assert TrimmedOrEmpty(Some("a/b/c")) == "a/b/c" by {
      assert IsTrimmed("a/b/c");
      TrimTrimmed("a/b/c");
    }
  }

  /** An ordinary product id, without "/" and not a refused name, writes
      exactly the document of that name. */
  lemma PlainIdWritesItsDocument(cat: Catalog, req: UpsertRequest, src: TokenSources, now: Timestamp, newId: string)
    requires newId != "" && newId !in cat
    requires CheckAdminToken(req.adminToken, src).Success?
    requires req.produkt.Some? && TrimmedOrEmpty(req.produkt.value.produktName) != ""
    requires req.produkt.value.produktPreisBrutto.Finite? && req.produkt.value.produktPreisBrutto.value.mantissa >= 0
    requires req.produkt.value.produktId.Some?
    requires var id := Trim(req.produkt.value.produktId.value); id != "" && '/' !in id && AllowedSegment(id)
    ensures var r := UpsertProduct(cat, req, src, now, newId);
            var id := Trim(req.produkt.value.produktId.value);
            && r.Success?
            && r.value.antwort.produktId == id
            && StoredUnder(cat, r.value.katalog, id, ValidateProduct(req.produkt).value, now)
  {
    PlainIdResolvesToItself(Trim(req.produkt.value.produktId.value));
  }

  /** The token is checked before the product is looked at: with a rejected
      token, two requests that differ only in their product data fail alike
      and write nothing. */
  lemma UnauthorizedUpsertIgnoresProduct(cat: Catalog, token: Option<string>, p1: Option<RawProduct>,
                                         p2: Option<RawProduct>, src: TokenSources, now: Timestamp, newId: string)
    requires newId != "" && newId !in cat
    requires CheckAdminToken(token, src).Failure?
    ensures UpsertProduct(cat, UpsertRequest(token, p1), src, now, newId)
            == UpsertProduct(cat, UpsertRequest(token, p2), src, now, newId)
    ensures UpsertProduct(cat, UpsertRequest(token, p1), src, now, newId).Failure?
  {
  }

  /** Re-submitting a stored product under its id stores the same product
      again: validation is idempotent on validated products. */
  lemma ValidateStoredProduct(p: Product, id: Option<string>)
    requires p.produktName != "" && IsTrimmed(p.produktName)
    requires p.produktBeschreibung.Some? ==> p.produktBeschreibung.value != "" && IsTrimmed(p.produktBeschreibung.value)
    requires p.produktKategorie.Some? ==> p.produktKategorie.value != "" && IsTrimmed(p.produktKategorie.value)
    requires p.waehrungCode != "" && IsTrimmed(p.waehrungCode) && ToUpper(p.waehrungCode) == p.waehrungCode
    requires p.optionenDefinition.Some? ==> IsClean(p.optionenDefinition.value)
    ensures ValidateProduct(Some(ToRawProduct(p, id))) == Success(p)
  {
    TrimTrimmed(p.produktName);
    TrimTrimmed(p.waehrungCode);
    if p.produktBeschreibung.Some? {
      TrimTrimmed(p.produktBeschreibung.value);
    }
    if p.produktKategorie.Some? {
      TrimTrimmed(p.produktKategorie.value);
    }
    Round2Cents(p.produktPreisBrutto);
    if p.optionenDefinition.Some? {
      CleanOfClean(p.optionenDefinition.value);
    }
  }

  /** A stored product sent back as submitted data, as the admin page does
      when editing one. */
  function ToRawProduct(p: Product, id: Option<string>): RawProduct {
    RawProduct(id, Some(p.produktName), p.produktBeschreibung, Finite(FromCents(p.produktPreisBrutto)),
               p.produktKategorie, Some(p.produktAktiv), Some(p.waehrungCode), ToRaw(p.optionenDefinition))
  }
}
