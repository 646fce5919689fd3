/** The price snapshot of an order (`berechnePreisSnap`). */
module Pricing {
  import opened Wrappers
  import opened OptionSchema
  import opened Selection

  /** A product document as the order page reads it. Only the fields that
      ordering reads; price, currency and active flag may be missing on a
      document the server did not write. */
  datatype ProductDoc = ProductDoc(
    produktName: string,
    produktPreisBrutto: Option<int>,
    waehrungCode: Option<string>,
    produktAktiv: Option<bool>,
    optionenDefinition: Option<Schema>)

  /** Unit and total price in cents, and the currency they are in. */
  datatype PriceSnapshot = PriceSnapshot(einzelpreis: int, gesamtpreis: int, waehrung: string)

  /** Sum of the deltas of a detail list, the reference the snapshot is
      checked against. */
  function SumOptionDeltas(ds: seq<OptionDetail>): int {
    if |ds| == 0 then 0 else ds[0].preisDelta + SumOptionDeltas(ds[1..])
  }

  /** The `reduce` of `berechnePreisSnap`: left to right from an
      accumulator. */
  function ReduceDeltas(summe: int, ds: seq<OptionDetail>): (r: int)
    ensures r == summe + SumOptionDeltas(ds)
    decreases |ds|
  {
    if |ds| == 0 then summe else ReduceDeltas(summe + ds[0].preisDelta, ds[1..])
  }

  /** `produkt.waehrungCode || standardWaehrungCode`. */
  function SnapshotCurrency(p: ProductDoc, standard: string): (w: string)
    ensures p.waehrungCode.Some? && p.waehrungCode.value != "" ==> w == p.waehrungCode.value
    ensures p.waehrungCode.None? || p.waehrungCode == Some("") ==> w == standard
  {
    if p.waehrungCode.Some? && p.waehrungCode.value != "" then p.waehrungCode.value else standard
  }

  /** `berechnePreisSnap`: unit price = base price (missing counts as 0)
      plus every option delta; total = unit price times quantity. */
  function PriceSnap(p: ProductDoc, details: seq<OptionDetail>, menge: int, standard: string): (snap: PriceSnapshot)
    ensures snap.einzelpreis == p.produktPreisBrutto.GetOr(0) + SumOptionDeltas(details)
    ensures snap.gesamtpreis == snap.einzelpreis * menge
    ensures snap.waehrung == SnapshotCurrency(p, standard)
  {
    var basis := p.produktPreisBrutto.GetOr(0);
    var einzel := basis + ReduceDeltas(0, details);
    PriceSnapshot(einzel, einzel * menge, SnapshotCurrency(p, standard))
  }

  lemma {:induction false} SumOptionDeltasAppend(a: seq<OptionDetail>, b: seq<OptionDetail>)
    ensures SumOptionDeltas(a + b) == SumOptionDeltas(a) + SumOptionDeltas(b)
  {
    if |a| == 0 {
      assert a + b == b;
    } else {
      assert (a + b)[0] == a[0];
      assert (a + b)[1..] == a[1..] + b;
      SumOptionDeltasAppend(a[1..], b);
    }
  }

  /** What one group adds to the unit price. */
  function GroupDelta(g: OptionGroup, sel: RawSelection): int {
    match ResolveGroup(g, sel)
    case None => 0
    case Some(p) => p.detail.preisDelta
  }

  function SumGroupDeltas(gs: seq<OptionGroup>, sel: RawSelection): int {
    if |gs| == 0 then 0 else GroupDelta(gs[0], sel) + SumGroupDeltas(gs[1..], sel)
  }

  /** The options add to the unit price exactly what each group of the
      schema contributes: its first checked value's delta when single
      choice, the sum of its checked values' deltas otherwise, 0 when
      nothing in it is checked. */
  lemma {:induction false} OptionsPriceIsSumOverGroups(gs: seq<OptionGroup>, sel: RawSelection)
    ensures SumOptionDeltas(ResolveGroups(gs, sel).details) == SumGroupDeltas(gs, sel)
  {
    if |gs| > 0 {
      OptionsPriceIsSumOverGroups(gs[1..], sel);
    }
  }

  /** A product without options, or an order with nothing checked, costs
      the base price per unit. */
  lemma PlainProductCostsBasePrice(p: ProductDoc, sel: RawSelection, menge: int, standard: string)
    requires p.optionenDefinition.None? || sel == map[]
    ensures var snap := PriceSnap(p, ResolveSelection(p.optionenDefinition, sel).details, menge, standard);
            && snap.einzelpreis == p.produktPreisBrutto.GetOr(0)
            && snap.gesamtpreis == p.produktPreisBrutto.GetOr(0) * menge
  {
    if p.optionenDefinition.Some? {
      ResolveNothingChecked(p.optionenDefinition.value.gruppen);
    }
  }

  /** A change of the base price by some amount moves the unit price by
      that amount and the total by that amount per unit. */
  lemma RepriceShiftsTotal(p: ProductDoc, details: seq<OptionDetail>, menge: int, standard: string, newPrice: int)
    ensures var before := PriceSnap(p, details, menge, standard);
            var after := PriceSnap(p.(produktPreisBrutto := Some(newPrice)), details, menge, standard);
            var d := newPrice - p.produktPreisBrutto.GetOr(0);
            && after.einzelpreis == before.einzelpreis + d
            && after.gesamtpreis == before.gesamtpreis + d * menge
  {
    var before := PriceSnap(p, details, menge, standard);
    var d := newPrice - p.produktPreisBrutto.GetOr(0);
    assert (before.einzelpreis + d) * menge == before.einzelpreis * menge + d * menge;
  }
}
