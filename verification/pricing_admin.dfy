/**
 * The admin pricing page: three edit dialogs (seasons, taxes, meal plans),
 * each with a form, an edit prefill, a payload builder, a reset and the
 * shared insert-or-update choice; plus the delete buttons.
 */
module PricingAdmin {
  import opened Common
  import opened BookingTypes
  import Text
  import Calendar
  import Seqs
  import AdminDialog

  // ---------------------------------------------------------------- seasons

  /** A `seasons` row; the dates are the `YYYY-MM-DD` text the database returns. */
  datatype Season = Season(
    id: string,
    name: string,
    seasonType: SeasonType,
    startDate: string,
    endDate: string,
    priceMultiplier: real,
    isActive: bool)

  /** A date field of the season form: unset, a day picked or parsed, or an invalid `Date`. */
  datatype FormDate = Unset | InvalidDate | OnDay(day: Calendar.Day)

  datatype SeasonForm = SeasonForm(
    name: string,
    seasonType: SeasonType,
    startDate: FormDate,
    endDate: FormDate,
    priceMultiplier: real,
    isActive: bool)

  /** An unset date is left out of the payload (`undefined`), so an update keeps the stored date. */
  datatype SeasonPayload = SeasonPayload(
    name: string,
    seasonType: SeasonType,
    startDate: Option<string>,
    endDate: Option<string>,
    priceMultiplier: real,
    isActive: bool)

  /** Rendering an invalid `Date` with `toISOString` throws, which fails the save. */
  datatype SaveError = InvalidTimeValue

  /** `resetSeasonForm` and the initial season form. */
  function SeasonDefault(): (f: SeasonForm)
    ensures f.name == "" && f.seasonType == Regular
    ensures f.startDate == Unset && f.endDate == Unset
    ensures f.priceMultiplier == 1.0 && f.isActive
  {
    SeasonForm("", Regular, Unset, Unset, 1.0, true)
  }

  /** `d?.toISOString().split("T")[0]`: absent stays absent, a day becomes its `YYYY-MM-DD` text. */
  function RenderFormDate(d: FormDate): (r: Result<Option<string>, SaveError>)
    ensures r.Err? <==> d.InvalidDate?
    ensures d.Unset? ==> r == Ok(None)
    ensures d.OnDay? ==> r == Ok(Some(Calendar.IsoDate(d.day)))
  {
    match d
    case Unset => Ok(None)
    case InvalidDate => Err(InvalidTimeValue)
    case OnDay(day) => Ok(Some(Calendar.IsoDate(day)))
  }

  /** The season payload: name, type, multiplier and flag copied, dates rendered; fails iff a date is invalid. */
  function SeasonPayloadOf(form: SeasonForm): (r: Result<SeasonPayload, SaveError>)
    ensures r.Err? <==> form.startDate.InvalidDate? || form.endDate.InvalidDate?
    ensures r.Ok? ==> r.value.name == form.name && r.value.seasonType == form.seasonType
    ensures r.Ok? ==> r.value.priceMultiplier == form.priceMultiplier && r.value.isActive == form.isActive
    ensures r.Ok? ==> Ok(r.value.startDate) == RenderFormDate(form.startDate)
    ensures r.Ok? ==> Ok(r.value.endDate) == RenderFormDate(form.endDate)
  {
    var start := RenderFormDate(form.startDate);
    var end := RenderFormDate(form.endDate);
    if start.Err? || end.Err? then Err(InvalidTimeValue)
    else Ok(SeasonPayload(form.name, form.seasonType, start.value, end.value, form.priceMultiplier, form.isActive))
  }

  /** `new Date(text)` on a stored date: a well-formed `YYYY-MM-DD` gives that day, anything else an invalid date. */
  function ParseStoredDate(s: string): (d: FormDate)
    ensures d != Unset
    ensures d.OnDay? <==> Calendar.ParseIsoDate(s).Some?
    ensures d.OnDay? ==> Calendar.IsoDate(d.day) == s
  {
    var p := Calendar.ParseIsoDate(s);
    if p.Some? then
      Calendar.RenderParsed(s);
      OnDay(p.value)
    else InvalidDate
  }

  /** `handleEditSeason`'s prefill. */
  function SeasonPrefill(s: Season): (f: SeasonForm)
    ensures f.name == s.name && f.seasonType == s.seasonType
    ensures f.priceMultiplier == s.priceMultiplier && f.isActive == s.isActive
    ensures f.startDate == ParseStoredDate(s.startDate) && f.endDate == ParseStoredDate(s.endDate)
  {
    SeasonForm(s.name, s.seasonType, ParseStoredDate(s.startDate), ParseStoredDate(s.endDate), s.priceMultiplier, s.isActive)
  }

  /** The row an update with this payload leaves behind: absent dates keep the stored ones. */
  function ApplySeasonUpdate(s: Season, p: SeasonPayload): (r: Season)
    ensures r.id == s.id && r.name == p.name && r.seasonType == p.seasonType
    ensures r.priceMultiplier == p.priceMultiplier && r.isActive == p.isActive
    ensures r.startDate == p.startDate.GetOr(s.startDate) && r.endDate == p.endDate.GetOr(s.endDate)
  {
    Season(s.id, p.name, p.seasonType, p.startDate.GetOr(s.startDate), p.endDate.GetOr(s.endDate),
           p.priceMultiplier, p.isActive)
  }

  /** Edit-then-save of an unchanged form always keeps name, type, multiplier and flag. */
  lemma SeasonEditKeepsFields(s: Season)
    requires SeasonPayloadOf(SeasonPrefill(s)).Ok?
    ensures var p := SeasonPayloadOf(SeasonPrefill(s)).value;
      p.name == s.name && p.seasonType == s.seasonType && p.priceMultiplier == s.priceMultiplier && p.isActive == s.isActive
  {}

  /** Edit-then-save of an unchanged form succeeds exactly when both stored dates are well-formed, and then rewrites the row unchanged. */
  lemma SeasonEditSaveRoundTrip(s: Season)
    ensures SeasonPayloadOf(SeasonPrefill(s)).Ok? <==>
      Calendar.ParseIsoDate(s.startDate).Some? && Calendar.ParseIsoDate(s.endDate).Some?
    ensures SeasonPayloadOf(SeasonPrefill(s)).Ok? ==>
      ApplySeasonUpdate(s, SeasonPayloadOf(SeasonPrefill(s)).value) == s
  {
    var f := SeasonPrefill(s);
    var r := SeasonPayloadOf(f);
    if r.Ok? {
      assert r.value.startDate == Some(s.startDate);
      assert r.value.endDate == Some(s.endDate);
    }
  }

  function SeasonSubmit(d: AdminDialog.Dialog<Season, SeasonForm>): (r: Result<AdminDialog.Save<SeasonPayload>, SaveError>)
    ensures r.Err? <==> SeasonPayloadOf(d.form).Err?
    ensures r.Ok? ==> r.value.payload == SeasonPayloadOf(d.form).value
    ensures r.Ok? ==> (r.value.Update? <==> d.editing.Some? && d.editing.value.id != "")
    ensures r.Ok? && r.value.Update? ==> r.value.id == d.editing.value.id
  {
    var p := SeasonPayloadOf(d.form);
    if p.Err? then Err(p.error)
    else Ok(AdminDialog.ChooseSave(AdminDialog.EditedId(d, (x: Season) => x.id), p.value))
  }

  // ------------------------------------------------------------------ taxes

  datatype TaxConfig = TaxConfig(id: string, name: string, percentage: real, isActive: bool)

  datatype TaxForm = TaxForm(name: string, percentage: real, isActive: bool)

  datatype TaxPayload = TaxPayload(name: string, percentage: real, isActive: bool)

  /** The initial tax form and the one restored after a save or a close through `onOpenChange`. */
  function TaxDefault(): (f: TaxForm)
    ensures f.name == "" && f.percentage == 18.0 && f.isActive
  {
    TaxForm("", 18.0, true)
  }

  function TaxPrefill(t: TaxConfig): (f: TaxForm)
    ensures f.name == t.name && f.percentage == t.percentage && f.isActive == t.isActive
  {
    TaxForm(t.name, t.percentage, t.isActive)
  }

  function TaxPayloadOf(f: TaxForm): (p: TaxPayload)
    ensures p.name == f.name && p.percentage == f.percentage && p.isActive == f.isActive
  {
    TaxPayload(f.name, f.percentage, f.isActive)
  }

  function ApplyTaxUpdate(t: TaxConfig, p: TaxPayload): (r: TaxConfig)
    ensures r.id == t.id
    ensures TaxPayloadOf(TaxPrefill(r)) == p
  {
    TaxConfig(t.id, p.name, p.percentage, p.isActive)
  }

  /** Edit-then-save of an unchanged tax form rewrites the row unchanged. */
  lemma TaxEditSaveRoundTrip(t: TaxConfig)
    ensures ApplyTaxUpdate(t, TaxPayloadOf(TaxPrefill(t))) == t
  {}

  function TaxSubmit(d: AdminDialog.Dialog<TaxConfig, TaxForm>): (s: AdminDialog.Save<TaxPayload>)
    ensures s.payload == TaxPayloadOf(d.form)
    ensures s.Update? <==> d.editing.Some? && d.editing.value.id != ""
    ensures s.Update? ==> s.id == d.editing.value.id
  {
    AdminDialog.ChooseSave(AdminDialog.EditedId(d, (x: TaxConfig) => x.id), TaxPayloadOf(d.form))
  }

  // ------------------------------------------------------------- meal plans

  /** A `meal_plan_prices` row; the code is free text here. */
  datatype MealPlanPrice = MealPlanPrice(
    id: string,
    mealPlan: string,
    name: string,
    description: Option<string>,
    adultPrice: real,
    childPrice: real,
    isActive: bool)

  datatype MealPlanForm = MealPlanForm(
    mealPlan: string,
    name: string,
    description: string,
    adultPrice: real,
    childPrice: real,
    isActive: bool)

  datatype MealPlanPayload = MealPlanPayload(
    mealPlan: string,
    name: string,
    description: Option<string>,
    adultPrice: real,
    childPrice: real,
    isActive: bool)

  /** `resetMealPlanForm` and the initial meal-plan form. */
  function MealPlanDefault(): (f: MealPlanForm)
    ensures f.mealPlan == "" && f.name == "" && f.description == ""
    ensures f.adultPrice == 0.0 && f.childPrice == 0.0 && f.isActive
  {
    MealPlanForm("", "", "", 0.0, 0.0, true)
  }

  /** Typing into the code field stores the text upper-cased. */
  function OnCodeInput(f: MealPlanForm, typed: string): (r: MealPlanForm)
    ensures |r.mealPlan| == |typed|
    ensures forall i :: 0 <= i < |typed| ==> r.mealPlan[i] == Text.UpperChar(typed[i])
    ensures forall i :: 0 <= i < |r.mealPlan| ==> !Text.IsAsciiLower(r.mealPlan[i])
    ensures r.(mealPlan := f.mealPlan) == f
  {
    f.(mealPlan := Text.ToUpper(typed))
  }

  /** The meal-plan payload: code upper-cased, empty description sent as null, the rest copied. */
  function MealPlanPayloadOf(f: MealPlanForm): (p: MealPlanPayload)
    ensures |p.mealPlan| == |f.mealPlan|
    ensures forall i :: 0 <= i < |f.mealPlan| ==> p.mealPlan[i] == Text.UpperChar(f.mealPlan[i])
    ensures forall i :: 0 <= i < |p.mealPlan| ==> !Text.IsAsciiLower(p.mealPlan[i])
    ensures p.description.None? <==> f.description == ""
    ensures p.description.Some? ==> p.description.value == f.description
    ensures p.name == f.name && p.adultPrice == f.adultPrice && p.childPrice == f.childPrice && p.isActive == f.isActive
  {
    MealPlanPayload(Text.ToUpper(f.mealPlan), f.name, Text.EmptyToNull(f.description), f.adultPrice, f.childPrice, f.isActive)
  }

  /** A code typed into the form is sent exactly as shown: upper-casing at input makes the payload's upper-casing a no-op. */
  lemma TypedCodeSentAsShown(f: MealPlanForm, typed: string)
    ensures MealPlanPayloadOf(OnCodeInput(f, typed)).mealPlan == OnCodeInput(f, typed).mealPlan
  {
    Text.ToUpperIdempotent(typed);
  }

  /** `handleEditMealPlan`'s prefill: the stored code as is, a null description as "". */
  function MealPlanPrefill(m: MealPlanPrice): (f: MealPlanForm)
    ensures f.mealPlan == m.mealPlan && f.name == m.name
    ensures f.description == "" <==> m.description.None? || m.description == Some("")
    ensures m.description.Some? ==> f.description == m.description.value
    ensures f.adultPrice == m.adultPrice && f.childPrice == m.childPrice && f.isActive == m.isActive
  {
    MealPlanForm(m.mealPlan, m.name, Text.NullToEmpty(m.description), m.adultPrice, m.childPrice, m.isActive)
  }

  function ApplyMealPlanUpdate(m: MealPlanPrice, p: MealPlanPayload): (r: MealPlanPrice)
    ensures r.id == m.id && r.mealPlan == p.mealPlan && r.name == p.name && r.description == p.description
    ensures r.adultPrice == p.adultPrice && r.childPrice == p.childPrice && r.isActive == p.isActive
  {
    MealPlanPrice(m.id, p.mealPlan, p.name, p.description, p.adultPrice, p.childPrice, p.isActive)
  }

  /** A stored description survives edit-then-save: null -> "" -> null, and every non-empty text is kept. */
  lemma MealPlanDescriptionRoundTrip(m: MealPlanPrice)
    requires m.description != Some("")
    ensures MealPlanPayloadOf(MealPlanPrefill(m)).description == m.description
  {
    Text.NullEmptyRoundTrip(m.description);
  }

  /** Edit-then-save of an unchanged meal plan rewrites it unchanged exactly when its code has no lower-case letter and its description is not "". */
  lemma MealPlanEditSaveRoundTrip(m: MealPlanPrice)
    ensures ApplyMealPlanUpdate(m, MealPlanPayloadOf(MealPlanPrefill(m))) == m <==>
      (forall i :: 0 <= i < |m.mealPlan| ==> !Text.IsAsciiLower(m.mealPlan[i])) && m.description != Some("")
  {
    var r := ApplyMealPlanUpdate(m, MealPlanPayloadOf(MealPlanPrefill(m)));
    Text.NullEmptyRoundTrip(m.description);
    if forall i :: 0 <= i < |m.mealPlan| ==> !Text.IsAsciiLower(m.mealPlan[i]) {
      Text.ToUpperNoop(m.mealPlan);
    }
  }

  function MealPlanSubmit(d: AdminDialog.Dialog<MealPlanPrice, MealPlanForm>): (s: AdminDialog.Save<MealPlanPayload>)
    ensures s.payload == MealPlanPayloadOf(d.form)
    ensures s.Update? <==> d.editing.Some? && d.editing.value.id != ""
    ensures s.Update? ==> s.id == d.editing.value.id
  {
    AdminDialog.ChooseSave(AdminDialog.EditedId(d, (x: MealPlanPrice) => x.id), MealPlanPayloadOf(d.form))
  }

  // ---------------------------------------------------------------- deletes

  /** `delete().eq("id", id)` on a table: exactly the rows with that id go, the others stay in order. */
  function ApplyDelete<Row>(rows: seq<Row>, id: string, rowId: Row -> string): (r: seq<Row>)
    ensures forall i :: 0 <= i < |r| ==> rowId(r[i]) != id && r[i] in rows
    ensures forall i :: 0 <= i < |rows| && rowId(rows[i]) != id ==> rows[i] in r
  {
    Seqs.Filter(rows, (x: Row) => rowId(x) != id)
  }
}
