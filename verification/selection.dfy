/** Resolution of the customer's checked option inputs against a product's
    option schema: the option loop of `speichereBestellung`. */
module Selection {
  import opened Wrappers
  import opened Money
  import opened OptionSchema

  /** The checked inputs of the order form. Every input of a group carries
      the group id as its `name` and a value label as its `value`; this maps a
      `name` to the `value`s whose inputs are checked. */
  type RawSelection = map<string, set<string>>

  function CheckedLabels(sel: RawSelection, gruppeId: string): set<string> {
    if gruppeId in sel then sel[gruppeId] else {}
  }

  /** The chosen value of a group: one label for a single-choice group, the
      list of labels for any other. */
  datatype Chosen = One(wert: string) | Many(werte: seq<string>)

  /** An entry of `optionenAuswahl`: what was picked, unpriced. */
  datatype SelectionEntry = SelectionEntry(gruppeId: string, wert: Chosen)

  /** An entry of `produktOptionenSnapshot`: what was picked, labelled and
      priced in cents. */
  datatype OptionDetail = OptionDetail(gruppeId: string, gruppenLabel: string, typ: string, wert: Chosen, preisDelta: int)

  /** The contribution of one group: both records, or nothing. */
  datatype Pick = Pick(entry: SelectionEntry, detail: OptionDetail)

  datatype Resolution = Resolution(auswahl: seq<SelectionEntry>, details: seq<OptionDetail>)

  /** The client reads a group as single choice exactly when its `typ` is
      the string "single"; every other `typ` is treated as multiple choice. */
  predicate IsSingle(g: OptionGroup) {
    g.typ == Single
  }

  /** Index of the first value whose input is checked, `|werte|` if none. */
  function FirstChecked(werte: seq<OptionValue>, labels: set<string>): (k: nat)
    ensures k <= |werte|
    ensures forall j :: 0 <= j < k ==> werte[j].wertLabel !in labels
    ensures k < |werte| ==> werte[k].wertLabel in labels
  {
    if |werte| == 0 then 0
    else if werte[0].wertLabel in labels then 0
    else 1 + FirstChecked(werte[1..], labels)
  }

  /** The values whose inputs are checked, in value order. */
  function CheckedValues(werte: seq<OptionValue>, labels: set<string>): (r: seq<OptionValue>)
    ensures |r| <= |werte|
    ensures forall v :: v in r ==> v in werte && v.wertLabel in labels
    ensures forall v :: v in werte && v.wertLabel in labels ==> v in r
    ensures |r| == 0 <==> FirstChecked(werte, labels) == |werte|
    ensures |r| > 0 ==> r[0] == werte[FirstChecked(werte, labels)]
  {
    if |werte| == 0 then []
    else
      var rest := CheckedValues(werte[1..], labels);
      assert werte == [werte[0]] + werte[1..];
      if werte[0].wertLabel in labels then [werte[0]] + rest else rest
  }

  /** Checking distributes over concatenation of value lists: every value
      keeps its place, so the checked values come out in value order, each
      as often as it occurs. */
  lemma {:induction false} CheckedValuesAppend(a: seq<OptionValue>, b: seq<OptionValue>, labels: set<string>)
    ensures CheckedValues(a + b, labels) == CheckedValues(a, labels) + CheckedValues(b, labels)
  {
    if |a| == 0 {
      assert a + b == b;
    } else {
      assert (a + b)[0] == a[0];
      assert (a + b)[1..] == a[1..] + b;
      CheckedValuesAppend(a[1..], b, labels);
    }
  }

  function LabelsOf(vs: seq<OptionValue>): (r: seq<string>)
    ensures |r| == |vs|
    ensures forall i :: 0 <= i < |vs| ==> r[i] == vs[i].wertLabel
  {
    if |vs| == 0 then [] else [vs[0].wertLabel] + LabelsOf(vs[1..])
  }

  function SumOfDeltas(vs: seq<OptionValue>): int {
    if |vs| == 0 then 0 else vs[0].preisDelta + SumOfDeltas(vs[1..])
  }

  /** One group of the option loop. A single-choice group yields its first
      checked value; any other group yields all checked values with the sum
      of their deltas; either yields nothing when no input is checked. Each
      delta passes through `Number(x.toFixed(2))`, which keeps whole cents. */
  function ResolveGroup(g: OptionGroup, sel: RawSelection): (r: Option<Pick>)
    ensures var labels := CheckedLabels(sel, g.id);
            r.None? <==> forall v :: v in g.werte ==> v.wertLabel !in labels
    ensures r.Some? ==>
              && r.value.entry == SelectionEntry(r.value.detail.gruppeId, r.value.detail.wert)
              && r.value.detail.gruppeId == g.id
              && r.value.detail.gruppenLabel == g.gruppenLabel
              && r.value.detail.typ == g.typ
    ensures r.Some? && IsSingle(g) ==>
              var k := FirstChecked(g.werte, CheckedLabels(sel, g.id));
              && k < |g.werte|
              && r.value.detail.wert == One(g.werte[k].wertLabel)
              && r.value.detail.preisDelta == g.werte[k].preisDelta
    ensures r.Some? && !IsSingle(g) ==>
              var vs := CheckedValues(g.werte, CheckedLabels(sel, g.id));
              && |vs| > 0
              && r.value.detail.wert == Many(LabelsOf(vs))
              && r.value.detail.preisDelta == SumOfDeltas(vs)
  {
    var labels := CheckedLabels(sel, g.id);
    var k := FirstChecked(g.werte, labels);
    if k == |g.werte| then
      None
    else if IsSingle(g) then
      var v := g.werte[k];
      Round2Cents(v.preisDelta);
      Some(Pick(SelectionEntry(g.id, One(v.wertLabel)),
                OptionDetail(g.id, g.gruppenLabel, g.typ, One(v.wertLabel), Round2(FromCents(v.preisDelta)))))
    else
      var vs := CheckedValues(g.werte, labels);
      var summe := SumOfDeltas(vs);
      Round2Cents(summe);
      Some(Pick(SelectionEntry(g.id, Many(LabelsOf(vs))),
                OptionDetail(g.id, g.gruppenLabel, g.typ, Many(LabelsOf(vs)), Round2(FromCents(summe)))))
  }

  /** The whole option loop over the product's groups, in schema order. */
  function ResolveGroups(gs: seq<OptionGroup>, sel: RawSelection): (r: Resolution)
    ensures |r.auswahl| == |r.details| <= |gs|
    ensures forall i :: 0 <= i < |r.details| ==>
              r.auswahl[i] == SelectionEntry(r.details[i].gruppeId, r.details[i].wert)
  {
    if |gs| == 0 then Resolution([], [])
    else
      var rest := ResolveGroups(gs[1..], sel);
      match ResolveGroup(gs[0], sel)
      case None => rest
      case Some(p) => Resolution([p.entry] + rest.auswahl, [p.detail] + rest.details)
  }

  /** Every detail names a group of the schema, with that group's label and
      type. */
  lemma {:induction false} DetailsComeFromSchema(gs: seq<OptionGroup>, sel: RawSelection)
    ensures forall d :: d in ResolveGroups(gs, sel).details ==>
              exists g :: g in gs && d.gruppeId == g.id && d.gruppenLabel == g.gruppenLabel && d.typ == g.typ
  {
    if |gs| > 0 {
      DetailsComeFromSchema(gs[1..], sel);
      assert gs[0] in gs;
      assert forall g :: g in gs[1..] ==> g in gs;
    }
  }

  /** `produkt.optionenDefinition?.gruppen || []` resolved. */
  function ResolveSelection(schema: Option<Schema>, sel: RawSelection): (r: Resolution)
    ensures schema.None? ==> r == Resolution([], [])
    ensures |r.details| <= (if schema.Some? then |schema.value.gruppen| else 0)
  {
    match schema
    case None => ResolveGroups([], sel)
    case Some(s) => ResolveGroups(s.gruppen, sel)
  }

  /** The contribution of one group as a (possibly empty) list. */
  function PickList(p: Option<Pick>): Resolution {
    match p
    case None => Resolution([], [])
    case Some(x) => Resolution([x.entry], [x.detail])
  }

  function Concat(a: Resolution, b: Resolution): Resolution {
    Resolution(a.auswahl + b.auswahl, a.details + b.details)
  }

  /** Resolution distributes over the group list, so the details come out in
      schema order, each group contributing in its own place. */
  lemma {:induction false} ResolveGroupsAppend(a: seq<OptionGroup>, b: seq<OptionGroup>, sel: RawSelection)
    ensures ResolveGroups(a + b, sel) == Concat(ResolveGroups(a, sel), ResolveGroups(b, sel))
  {
    if |a| == 0 {
      assert a + b == b;
    } else {
      var head := PickList(ResolveGroup(a[0], sel));
      var x := ResolveGroups(a[1..], sel);
      var y := ResolveGroups(b, sel);
      calc {
        ResolveGroups(a + b, sel);
      == { ResolveGroupsCons(a + b, sel); }
        Concat(PickList(ResolveGroup((a + b)[0], sel)), ResolveGroups((a + b)[1..], sel));
      == { assert (a + b)[0] == a[0]; assert (a + b)[1..] == a[1..] + b; }
        Concat(head, ResolveGroups(a[1..] + b, sel));
      == { ResolveGroupsAppend(a[1..], b, sel); }
        Concat(head, Concat(x, y));
      == { ConcatAssoc(head, x, y); }
        Concat(Concat(head, x), y);
      == { ResolveGroupsCons(a, sel); }
        Concat(ResolveGroups(a, sel), y);
      }
    }
  }

  lemma ConcatAssoc(a: Resolution, b: Resolution, c: Resolution)
    ensures Concat(a, Concat(b, c)) == Concat(Concat(a, b), c)
  {
    assert a.auswahl + (b.auswahl + c.auswahl) == (a.auswahl + b.auswahl) + c.auswahl;
    assert a.details + (b.details + c.details) == (a.details + b.details) + c.details;
  }

  /** One unfolding step of `ResolveGroups`. */
  lemma ResolveGroupsCons(gs: seq<OptionGroup>, sel: RawSelection)
    requires |gs| > 0
    ensures ResolveGroups(gs, sel) == Concat(PickList(ResolveGroup(gs[0], sel)), ResolveGroups(gs[1..], sel))
  {
    var rest := ResolveGroups(gs[1..], sel);
    if ResolveGroup(gs[0], sel).None? {
      assert Concat(Resolution([], []), rest) == rest by {
        assert [] + rest.auswahl == rest.auswahl;
        assert [] + rest.details == rest.details;
      }
    }
  }

  lemma ResolveInSchemaOrder(a: seq<OptionGroup>, g: OptionGroup, b: seq<OptionGroup>, sel: RawSelection)
    ensures ResolveGroups(a + [g] + b, sel)
            == Concat(Concat(ResolveGroups(a, sel), PickList(ResolveGroup(g, sel))), ResolveGroups(b, sel))
  {
    assert ResolveGroups([g], sel) == PickList(ResolveGroup(g, sel)) by {
      assert [g][1..] == [];
      assert [g][0] == g;
    }
    ResolveGroupsAppend(a + [g], b, sel);
    ResolveGroupsAppend(a, [g], sel);
  }

  /** Only the product's own groups are looked at: checked inputs under any
      other name change nothing. */
  lemma {:induction false} ResolveIgnoresUnknownGroups(gs: seq<OptionGroup>, sel1: RawSelection, sel2: RawSelection)
    requires forall g :: g in gs ==> CheckedLabels(sel1, g.id) == CheckedLabels(sel2, g.id)
    ensures ResolveGroups(gs, sel1) == ResolveGroups(gs, sel2)
  {
    if |gs| > 0 {
      assert gs[0] in gs;
      assert forall g :: g in gs[1..] ==> g in gs;
      ResolveIgnoresUnknownGroups(gs[1..], sel1, sel2);
    }
  }

  /** With nothing checked, nothing is resolved. */
  lemma {:induction false} ResolveNothingChecked(gs: seq<OptionGroup>)
    ensures ResolveGroups(gs, map[]) == Resolution([], [])
  {
    if |gs| > 0 {
      ResolveNothingChecked(gs[1..]);
    }
  }

  /** The server cleans every unknown `typ` to "single", the client reads
      every `typ` but "single" as multiple choice. On a cleaned group the two
      readings agree. */
  lemma CleanGroupTypeAgrees(g: OptionGroup)
    requires GroupIsClean(g)
    ensures IsSingle(g) <==> g.typ != Multi
  {
  }

  /** On a group that did not come through the cleaner they do not. A group
      typed "Single" is drawn as radio buttons, so at most one of its inputs
      is checked; the page still resolves it as multiple choice and records a
      list where the cleaned group records one label. */
  lemma UnknownTypeResolvesAsMulti()
    ensures var werte := [OptionValue("Klein", 0), OptionValue("Groß", 200)];
            var sel := map["groesse" := {"Groß"}];
            var raw := ResolveGroup(OptionGroup("groesse", "Größe", "Single", werte), sel);
            var clean := ResolveGroup(OptionGroup("groesse", "Größe", Single, werte), sel);
            && raw.Some? && raw.value.detail.wert == Many(["Groß"]) && raw.value.detail.preisDelta == 200
            && clean.Some? && clean.value.detail.wert == One("Groß") && clean.value.detail.preisDelta == 200
  {
    var werte := [OptionValue("Klein", 0), OptionValue("Groß", 200)];
    var labels: set<string> := {"Groß"};
    assert werte[1..][1..] == [];
    assert CheckedValues(werte[1..], labels) == [werte[1]];
    assert CheckedValues(werte, labels) == [werte[1]];
    assert FirstChecked(werte, labels) == 1;
  }
}
