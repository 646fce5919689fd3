/** The option schema of a product and the server-side cleaner that turns an
    untrusted option definition into one (`bereinigeOptionenDefinition`). */
module OptionSchema {
  import opened Wrappers
  import opened Text
  import opened Money

  /** One entry of `werte` as it arrives: `null`/`undefined`, or anything
      else. A primitive reads every property as `undefined`, so it is an entry
      whose fields are all absent. A field is `Some` only when it holds a
      string; the delta is what `parseFloat` makes of the raw field. */
  datatype RawValue =
    | NullishValue
    | ValueEntry(wertLabel: Option<string>, preisDelta: NumberInput)

  /** One entry of `gruppen` as it arrives; `werte` is `Some` only for an
      array. */
  datatype RawGroup =
    | NullishGroup
    | GroupEntry(id: Option<string>, gruppenLabel: Option<string>, typ: Option<string>,
                 werte: Option<seq<RawValue>>)

  /** The whole definition: not an object at all (including `null`), or an
      object whose `gruppen` is `Some` only when it is an array. */
  datatype RawDefinition =
    | NotAnObject
    | DefinitionObject(gruppen: Option<seq<RawGroup>>)

  /** A cleaned value; the delta is in cents. */
  datatype OptionValue = OptionValue(wertLabel: string, preisDelta: int)

  /** A cleaned group. `typ` stays a string because readers of stored
      products compare it against literals themselves. */
  datatype OptionGroup = OptionGroup(id: string, gruppenLabel: string, typ: string, werte: seq<OptionValue>)

  datatype Schema = Schema(gruppen: seq<OptionGroup>)

  const Single: string := "single"
  const Multi: string := "multi"

  /** The error a property read on `null` or `undefined` raises. */
  datatype TypeError = PropertyOfNullish

  // ---------------------------------------------------------------------
  // What a cleaned schema looks like

  predicate ValueIsClean(v: OptionValue) {
    v.wertLabel != "" && IsTrimmed(v.wertLabel)
  }

  predicate GroupIsClean(g: OptionGroup) {
    && g.id != "" && IsTrimmed(g.id)
    && g.gruppenLabel != "" && IsTrimmed(g.gruppenLabel)
    && (g.typ == Single || g.typ == Multi)
    && forall v :: v in g.werte ==> ValueIsClean(v)
  }

  /** A cleaned schema is never an empty group list. */
  predicate IsClean(s: Schema) {
    |s.gruppen| > 0 && forall g :: g in s.gruppen ==> GroupIsClean(g)
  }

  // ---------------------------------------------------------------------
  // The cleaner

  /** `typeof x === "string" ? x.trim() : ""` */
  function TrimmedOrEmpty(s: Option<string>): (r: string)
    ensures IsTrimmed(r)
    ensures s.None? ==> r == ""
  {
    match s
    case Some(t) => Trim(t)
    case None => ""
  }

  /** A value's delta: the parsed number rounded to cents when finite,
      otherwise 0. */
  function DeltaCents(n: NumberInput): (c: int)
    ensures n.NotFinite? ==> c == 0
    ensures n.Finite? ==> NearestCents(c, n.value)
  {
    match n
    case Finite(d) => Round2(d)
    case NotFinite => 0
  }

  /** One value: kept exactly when its trimmed label is non-empty. A nullish
      entry is dropped (the source throws instead; see
      `CleanValuesAsWritten`). */
  function CleanValue(w: RawValue): (r: Option<OptionValue>)
    ensures r.Some? <==> w.ValueEntry? && TrimmedOrEmpty(w.wertLabel) != ""
    ensures r.Some? ==> ValueIsClean(r.value)
    ensures r.Some? ==> r.value.wertLabel == TrimmedOrEmpty(w.wertLabel)
    ensures r.Some? && w.preisDelta.NotFinite? ==> r.value.preisDelta == 0
    ensures r.Some? && w.preisDelta.Finite? ==> NearestCents(r.value.preisDelta, w.preisDelta.value)
  {
    match w
    case NullishValue => None
    case ValueEntry(wertLabel, delta) =>
      var l := TrimmedOrEmpty(wertLabel);
      if l == "" then None else Some(OptionValue(l, DeltaCents(delta)))
  }

  /** The `werte.map(...).filter(...)` step: clean each value, drop the ones
      without a label, keep the input order. */
  function CleanValues(ws: seq<RawValue>): (r: seq<OptionValue>)
    ensures |r| <= |ws|
    ensures forall v :: v in r ==> ValueIsClean(v)
    ensures |r| == |ws| <==> forall w :: w in ws ==> CleanValue(w).Some?
  {
    if |ws| == 0 then []
    else
      var rest := CleanValues(ws[1..]);
      assert forall w :: w in ws[1..] ==> w in ws;
      match CleanValue(ws[0])
      case Some(v) => [v] + rest
      case None => rest
  }

  /** One group: discarded exactly when its trimmed id or trimmed label is
      empty, whatever its values are. */
  function CleanGroup(g: RawGroup): (r: Option<OptionGroup>)
    ensures r.Some? <==> g.GroupEntry? && TrimmedOrEmpty(g.id) != "" && TrimmedOrEmpty(g.gruppenLabel) != ""
    ensures r.Some? ==> GroupIsClean(r.value)
    ensures r.Some? ==> r.value.id == TrimmedOrEmpty(g.id) && r.value.gruppenLabel == TrimmedOrEmpty(g.gruppenLabel)
    ensures r.Some? ==> (r.value.typ == Multi <==> g.typ == Some(Multi))
    ensures r.Some? ==> r.value.werte == CleanValues(g.werte.GetOr([]))
  {
    match g
    case NullishGroup => None
    case GroupEntry(id, gruppenLabel, typ, werte) =>
      var i := TrimmedOrEmpty(id);
      var l := TrimmedOrEmpty(gruppenLabel);
      if i == "" || l == "" then None
      else Some(OptionGroup(i, l, if typ == Some(Multi) then Multi else Single, CleanValues(werte.GetOr([]))))
  }

  /** The `gruppen.map(...).filter(Boolean)` step. */
  function CleanGroups(gs: seq<RawGroup>): (r: seq<OptionGroup>)
    ensures |r| <= |gs|
    ensures forall g :: g in r ==> GroupIsClean(g)
  {
    if |gs| == 0 then []
    else
      var rest := CleanGroups(gs[1..]);
      assert forall g :: g in gs[1..] ==> g in gs;
      match CleanGroup(gs[0])
      case Some(g) => [g] + rest
      case None => rest
  }

  /** Nothing survives exactly when every group is discarded. */
  lemma {:induction false} CleanGroupsEmpty(gs: seq<RawGroup>)
    ensures |CleanGroups(gs)| == 0 <==> forall g :: g in gs ==> CleanGroup(g).None?
  {
    if |gs| > 0 {
      CleanGroupsEmpty(gs[1..]);
      assert gs == [gs[0]] + gs[1..];
    }
  }

  /** The groups the cleaner looks at: `gruppen` when it is an array, else none. */
  function RawGroups(raw: RawDefinition): seq<RawGroup> {
    match raw
    case NotAnObject => []
    case DefinitionObject(gruppen) => gruppen.GetOr([])
  }

  /** `bereinigeOptionenDefinition`: absent for a non-object and whenever no
      group survives, so never an empty group list. */
  function CleanOptionDefinition(raw: RawDefinition): (r: Option<Schema>)
    ensures raw.NotAnObject? ==> r.None?
    ensures r.None? <==> forall g :: g in RawGroups(raw) ==> CleanGroup(g).None?
    ensures r.Some? ==> IsClean(r.value)
    ensures r.Some? ==> |r.value.gruppen| > 0
  {
    match raw
    case NotAnObject => None
    case DefinitionObject(gruppen) =>
      var gs := CleanGroups(gruppen.GetOr([]));
      CleanGroupsEmpty(gruppen.GetOr([]));
      if |gs| == 0 then None else Some(Schema(gs))
  }

  // ---------------------------------------------------------------------
  // Order is preserved

  lemma {:induction false} CleanValuesAppend(a: seq<RawValue>, b: seq<RawValue>)
    ensures CleanValues(a + b) == CleanValues(a) + CleanValues(b)
  {
    if |a| == 0 {
      assert a + b == b;
    } else {
      assert (a + b)[0] == a[0];
      assert (a + b)[1..] == a[1..] + b;
      CleanValuesAppend(a[1..], b);
    }
  }

  /** What one group contributes to the cleaned list. */
  function Kept(g: RawGroup): seq<OptionGroup> {
    if CleanGroup(g).Some? then [CleanGroup(g).value] else []
  }

  lemma CleanGroupsCons(gs: seq<RawGroup>)
    requires |gs| > 0
    ensures CleanGroups(gs) == Kept(gs[0]) + CleanGroups(gs[1..])
  {
    if CleanGroup(gs[0]).None? {
      assert [] + CleanGroups(gs[1..]) == CleanGroups(gs[1..]);
    }
  }

  lemma {:induction false} CleanGroupsAppend(a: seq<RawGroup>, b: seq<RawGroup>)
    ensures CleanGroups(a + b) == CleanGroups(a) + CleanGroups(b)
  {
    if |a| == 0 {
      assert a + b == b;
    } else {
      calc {
        CleanGroups(a + b);
      == { CleanGroupsCons(a + b); }
        Kept((a + b)[0]) + CleanGroups((a + b)[1..]);
      == { assert (a + b)[0] == a[0]; assert (a + b)[1..] == a[1..] + b; }
        Kept(a[0]) + CleanGroups(a[1..] + b);
      == { CleanGroupsAppend(a[1..], b); }
        Kept(a[0]) + (CleanGroups(a[1..]) + CleanGroups(b));
      ==
        (Kept(a[0]) + CleanGroups(a[1..])) + CleanGroups(b);
      == { CleanGroupsCons(a); }
        CleanGroups(a) + CleanGroups(b);
      }
    }
  }

  /** Cleaning distributes over concatenation, so it keeps the input order of
      groups and of values: each entry contributes its own cleaned form, or
      nothing, in place. */
  lemma CleanKeepsOrder(a: seq<RawGroup>, g: RawGroup, b: seq<RawGroup>)
    ensures CleanGroups(a + [g] + b) == CleanGroups(a) + Kept(g) + CleanGroups(b)
  {
    assert CleanGroups([g]) == Kept(g) by {
      assert [g][1..] == [];
      CleanGroupsCons([g]);
      assert Kept(g) + [] == Kept(g);
    }
    CleanGroupsAppend(a + [g], b);
    CleanGroupsAppend(a, [g]);
  }

  // ---------------------------------------------------------------------
  // Idempotence

  /** A cleaned schema written back as an untrusted definition: every field
      present, every delta the number of its cents. */
  function ValuesToRaw(vs: seq<OptionValue>): (r: seq<RawValue>)
    ensures |r| == |vs|
  {
    if |vs| == 0 then []
    else [ValueEntry(Some(vs[0].wertLabel), Finite(FromCents(vs[0].preisDelta)))] + ValuesToRaw(vs[1..])
  }

  function GroupsToRaw(gs: seq<OptionGroup>): (r: seq<RawGroup>)
    ensures |r| == |gs|
  {
    if |gs| == 0 then []
    else [GroupEntry(Some(gs[0].id), Some(gs[0].gruppenLabel), Some(gs[0].typ), Some(ValuesToRaw(gs[0].werte)))]
         + GroupsToRaw(gs[1..])
  }

  /** Absence is written back as `null`. */
  function ToRaw(s: Option<Schema>): RawDefinition {
    match s
    case None => NotAnObject
    case Some(schema) => DefinitionObject(Some(GroupsToRaw(schema.gruppen)))
  }

  lemma {:induction false} CleanValuesOfClean(vs: seq<OptionValue>)
    requires forall v :: v in vs ==> ValueIsClean(v)
    ensures CleanValues(ValuesToRaw(vs)) == vs
  {
    if |vs| > 0 {
      var raw := ValuesToRaw(vs);
      assert raw[1..] == ValuesToRaw(vs[1..]);
      assert vs[0] in vs;
      TrimTrimmed(vs[0].wertLabel);
      Round2Cents(vs[0].preisDelta);
      assert CleanValue(raw[0]) == Some(vs[0]);
      assert forall v :: v in vs[1..] ==> v in vs;
      CleanValuesOfClean(vs[1..]);
      assert vs == [vs[0]] + vs[1..];
    }
  }

  lemma {:induction false} CleanGroupsOfClean(gs: seq<OptionGroup>)
    requires forall g :: g in gs ==> GroupIsClean(g)
    ensures CleanGroups(GroupsToRaw(gs)) == gs
  {
    if |gs| > 0 {
      var raw := GroupsToRaw(gs);
      assert raw[1..] == GroupsToRaw(gs[1..]);
      assert gs[0] in gs;
      TrimTrimmed(gs[0].id);
      TrimTrimmed(gs[0].gruppenLabel);
      CleanValuesOfClean(gs[0].werte);
      assert CleanGroup(raw[0]) == Some(gs[0]);
      assert forall g :: g in gs[1..] ==> g in gs;
      CleanGroupsOfClean(gs[1..]);
    }
  }

  /** A clean schema is a fixed point of the cleaner. */
  lemma CleanOfClean(s: Schema)
    requires IsClean(s)
    ensures CleanOptionDefinition(ToRaw(Some(s))) == Some(s)
  {
    CleanGroupsOfClean(s.gruppen);
  }

  /** Cleaning is idempotent: cleaning the stored result of a cleaning,
      absent or not, gives the same result again. */
  lemma CleanIdempotent(raw: RawDefinition)
    ensures CleanOptionDefinition(ToRaw(CleanOptionDefinition(raw))) == CleanOptionDefinition(raw)
  {
    if CleanOptionDefinition(raw).Some? {
      CleanOfClean(CleanOptionDefinition(raw).value);
    }
  }

  // ---------------------------------------------------------------------
  // The cleaner as written: a nullish entry throws

  /** A group entry whose processing reads a property of `null`/`undefined`:
      the group itself, or one of its values, even in a group that is
      discarded afterwards (values are mapped before the id check). */
  predicate GroupThrows(g: RawGroup) {
    g.NullishGroup? || (g.werte.Some? && NullishValue in g.werte.value)
  }

  function CleanValuesAsWritten(ws: seq<RawValue>): (r: Result<seq<OptionValue>, TypeError>)
    ensures r.Failure? <==> NullishValue in ws
    ensures r.Success? ==> r.value == CleanValues(ws)
  {
    if |ws| == 0 then Success([])
    else if ws[0].NullishValue? then Failure(PropertyOfNullish)
    else
      var rest := CleanValuesAsWritten(ws[1..]);
      assert ws == [ws[0]] + ws[1..];
      if rest.Failure? then rest
      else match CleanValue(ws[0])
        case Some(v) => Success([v] + rest.value)
        case None => Success(rest.value)
  }

  function CleanGroupAsWritten(g: RawGroup): (r: Result<Option<OptionGroup>, TypeError>)
    ensures r.Failure? <==> GroupThrows(g)
    ensures r.Success? ==> r.value == CleanGroup(g)
  {
    match g
    case NullishGroup => Failure(PropertyOfNullish)
    case GroupEntry(id, gruppenLabel, typ, werte) =>
      var vs := CleanValuesAsWritten(werte.GetOr([]));
      if vs.Failure? then Failure(vs.error)
      else
        var i := TrimmedOrEmpty(id);
        var l := TrimmedOrEmpty(gruppenLabel);
        if i == "" || l == "" then Success(None)
        else Success(Some(OptionGroup(i, l, if typ == Some(Multi) then Multi else Single, vs.value)))
  }

  /** Some group of the list makes the source throw. */
  predicate AnyThrows(gs: seq<RawGroup>) {
    |gs| > 0 && (GroupThrows(gs[0]) || AnyThrows(gs[1..]))
  }

  lemma {:induction false} AnyThrowsExists(gs: seq<RawGroup>)
    ensures AnyThrows(gs) <==> exists g :: g in gs && GroupThrows(g)
  {
    if |gs| > 0 {
      AnyThrowsExists(gs[1..]);
      assert gs == [gs[0]] + gs[1..];
    }
  }

  function CleanGroupsAsWritten(gs: seq<RawGroup>): (r: Result<seq<OptionGroup>, TypeError>)
    ensures r.Failure? <==> AnyThrows(gs)
    ensures r.Success? ==> r.value == CleanGroups(gs)
  {
    if |gs| == 0 then Success([])
    else
      var first := CleanGroupAsWritten(gs[0]);
      var rest := CleanGroupsAsWritten(gs[1..]);
      CleanGroupsCons(gs);
      if first.Failure? then Failure(first.error)
      else if rest.Failure? then rest
      else match first.value
        case Some(g) => Success([g] + rest.value)
        case None => Success(rest.value)
  }

  /** `bereinigeOptionenDefinition` exactly as written: like
      `CleanOptionDefinition`, except that a nullish group or value entry
      raises a TypeError out of the `map` callback. */
  function CleanOptionDefinitionAsWritten(raw: RawDefinition): (r: Result<Option<Schema>, TypeError>)
    ensures r.Failure? <==> exists g :: g in RawGroups(raw) && GroupThrows(g)
    ensures r.Success? ==> r.value == CleanOptionDefinition(raw)
  {
    match raw
    case NotAnObject => Success(None)
    case DefinitionObject(gruppen) =>
      var gs := CleanGroupsAsWritten(gruppen.GetOr([]));
      AnyThrowsExists(gruppen.GetOr([]));
      if gs.Failure? then Failure(gs.error)
      else if |gs.value| == 0 then Success(None)
      else Success(Some(Schema(gs.value)))
  }

  /** The discrepancy: `{gruppen: [null]}` makes the source throw, although
      a definition without usable groups is meant to clean to "no options";
      a null value inside a group that is discarded anyway throws too. */
  lemma NullishEntryThrows()
    ensures CleanOptionDefinitionAsWritten(DefinitionObject(Some([NullishGroup]))).Failure?
    ensures CleanOptionDefinition(DefinitionObject(Some([NullishGroup]))) == None
    ensures CleanOptionDefinitionAsWritten(
              DefinitionObject(Some([GroupEntry(None, None, None, Some([NullishValue]))]))).Failure?
    ensures CleanOptionDefinition(
              DefinitionObject(Some([GroupEntry(None, None, None, Some([NullishValue]))]))) == None
  {
    assert GroupThrows(NullishGroup);
    assert NullishGroup in RawGroups(DefinitionObject(Some([NullishGroup])));
    var g := GroupEntry(None, None, None, Some([NullishValue]));
    assert GroupThrows(g);
    assert g in RawGroups(DefinitionObject(Some([g])));
  }
}
