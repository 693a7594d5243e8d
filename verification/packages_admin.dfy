/**
 * The admin packages page: the edit dialog's form, the payload a save
 * writes (fixed and per-night prices are mutually exclusive), the edit
 * prefill, the slug-on-create rule and the active toggle.
 */
module PackagesAdmin {
  import opened Common
  import opened BookingTypes
  import Text
  import Slug
  import AdminDialog

  /** A `packages` row as the page reads it. */
  datatype PackageRow = PackageRow(
    id: string,
    name: string,
    slug: string,
    packageType: PackageType,
    description: Option<string>,
    shortDescription: Option<string>,
    durationNights: int,
    isFixedPrice: bool,
    fixedPrice: Option<real>,
    perNightPrice: Option<real>,
    isActive: bool,
    isFeatured: bool,
    sortOrder: Option<int>)

  /** The dialog's form state: every text field a string, both prices numbers. */
  datatype PackageForm = PackageForm(
    name: string,
    slug: string,
    packageType: PackageType,
    description: string,
    shortDescription: string,
    durationNights: int,
    isFixedPrice: bool,
    fixedPrice: real,
    perNightPrice: real,
    isActive: bool,
    isFeatured: bool)

  /** The object handed to `insert`/`update`: the form spread with the id, prices made exclusive. */
  datatype PackagePayload = PackagePayload(
    id: Option<string>,
    name: string,
    slug: string,
    packageType: PackageType,
    description: string,
    shortDescription: string,
    durationNights: int,
    isFixedPrice: bool,
    fixedPrice: Option<real>,
    perNightPrice: Option<real>,
    isActive: bool,
    isFeatured: bool)

  function DefaultForm(): (f: PackageForm)
    ensures f.name == "" && f.slug == "" && f.description == "" && f.shortDescription == ""
    ensures f.packageType == Weekend && f.durationNights == 2
    ensures f.isFixedPrice && f.fixedPrice == 10000.0 && f.perNightPrice == 0.0
    ensures f.isActive && !f.isFeatured
  {
    PackageForm("", "", Weekend, "", "", 2, true, 10000.0, 0.0, true, false)
  }

  /** The save payload: exactly one of the two prices is non-null, the one the fixed-price switch selects; every other field is the form's. */
  function SavePayload(form: PackageForm, id: Option<string>): (p: PackagePayload)
    ensures p.id == id
    ensures p.isFixedPrice == form.isFixedPrice
    ensures form.isFixedPrice ==> p.fixedPrice == Some(form.fixedPrice) && p.perNightPrice.None?
    ensures !form.isFixedPrice ==> p.perNightPrice == Some(form.perNightPrice) && p.fixedPrice.None?
    ensures p.fixedPrice.Some? != p.perNightPrice.Some?
    ensures p.name == form.name && p.slug == form.slug && p.packageType == form.packageType
    ensures p.description == form.description && p.shortDescription == form.shortDescription
    ensures p.durationNights == form.durationNights
    ensures p.isActive == form.isActive && p.isFeatured == form.isFeatured
  {
    PackagePayload(id, form.name, form.slug, form.packageType, form.description, form.shortDescription,
                   form.durationNights, form.isFixedPrice,
                   if form.isFixedPrice then Some(form.fixedPrice) else None,
                   if form.isFixedPrice then None else Some(form.perNightPrice),
                   form.isActive, form.isFeatured)
  }

  /** `handleEdit`'s prefill: null descriptions become "", null prices become 0, the rest is copied. */
  function Prefill(row: PackageRow): (f: PackageForm)
    ensures f.name == row.name && f.slug == row.slug && f.packageType == row.packageType
    ensures f.durationNights == row.durationNights && f.isFixedPrice == row.isFixedPrice
    ensures f.isActive == row.isActive && f.isFeatured == row.isFeatured
    ensures f.description == "" <==> row.description.None? || row.description == Some("")
    ensures f.shortDescription == "" <==> row.shortDescription.None? || row.shortDescription == Some("")
    ensures row.description.Some? ==> f.description == row.description.value
    ensures row.shortDescription.Some? ==> f.shortDescription == row.shortDescription.value
    ensures row.fixedPrice.None? ==> f.fixedPrice == 0.0
    ensures row.perNightPrice.None? ==> f.perNightPrice == 0.0
    ensures row.fixedPrice.Some? ==> f.fixedPrice == row.fixedPrice.value
    ensures row.perNightPrice.Some? ==> f.perNightPrice == row.perNightPrice.value
  {
    PackageForm(row.name, row.slug, row.packageType,
                Text.NullToEmpty(row.description), Text.NullToEmpty(row.shortDescription),
                row.durationNights, row.isFixedPrice,
                row.fixedPrice.GetOr(0.0), row.perNightPrice.GetOr(0.0),
                row.isActive, row.isFeatured)
  }

  /** The submit: the form with `editingPackage?.id`, as an update when that id is present. */
  function Submit(d: AdminDialog.Dialog<PackageRow, PackageForm>): (s: AdminDialog.Save<PackagePayload>)
    ensures s.Update? <==> d.editing.Some? && d.editing.value.id != ""
    ensures s.Update? ==> s.id == d.editing.value.id
    ensures s.payload == SavePayload(d.form, if d.editing.Some? then Some(d.editing.value.id) else None)
  {
    var id := AdminDialog.EditedId(d, (r: PackageRow) => r.id);
    AdminDialog.ChooseSave(id, SavePayload(d.form, id))
  }

  /** The row an update with this payload leaves behind (the payload carries no sort order). */
  function ApplyUpdate(row: PackageRow, p: PackagePayload): (r: PackageRow)
    ensures r.id == row.id && r.sortOrder == row.sortOrder
    ensures r.name == p.name && r.slug == p.slug && r.packageType == p.packageType
    ensures r.description == Some(p.description) && r.shortDescription == Some(p.shortDescription)
    ensures r.durationNights == p.durationNights && r.isFixedPrice == p.isFixedPrice
    ensures r.fixedPrice == p.fixedPrice && r.perNightPrice == p.perNightPrice
    ensures r.isActive == p.isActive && r.isFeatured == p.isFeatured
  {
    row.(name := p.name, slug := p.slug, packageType := p.packageType,
         description := Some(p.description), shortDescription := Some(p.shortDescription),
         durationNights := p.durationNights, isFixedPrice := p.isFixedPrice,
         fixedPrice := p.fixedPrice, perNightPrice := p.perNightPrice,
         isActive := p.isActive, isFeatured := p.isFeatured)
  }

  /** A row that an unchanged edit-and-save reproduces: descriptions present, and exactly the selected price present. */
  predicate Normalized(row: PackageRow) {
    && row.description.Some? && row.shortDescription.Some?
    && (if row.isFixedPrice then row.fixedPrice.Some? && row.perNightPrice.None?
        else row.perNightPrice.Some? && row.fixedPrice.None?)
  }

  /** Opening a row for edit and saving without changes leaves it unchanged exactly when it is normalized; otherwise the save writes "" for null descriptions and nulls the unselected price. */
  lemma EditSaveRoundTrip(row: PackageRow)
    ensures ApplyUpdate(row, SavePayload(Prefill(row), Some(row.id))) == row <==> Normalized(row)
  {
    var r := ApplyUpdate(row, SavePayload(Prefill(row), Some(row.id)));
    if r == row {
      assert row.description == Some(Text.NullToEmpty(row.description));
      assert row.shortDescription == Some(Text.NullToEmpty(row.shortDescription));
    }
  }

  /** Any row, once saved through the dialog, is normalized. */
  lemma SavedRowsAreNormalized(row: PackageRow, form: PackageForm)
    ensures Normalized(ApplyUpdate(row, SavePayload(form, Some(row.id))))
  {}

  /** Typing a name: the slug follows the name only while creating; an edited package keeps its slug. */
  function OnNameChange(form: PackageForm, editing: bool, name: string): (f: PackageForm)
    ensures f.name == name
    ensures editing ==> f.slug == form.slug
    ensures !editing ==> f.slug == Slug.GenerateSlug(name) && Slug.IsSlug(f.slug)
    ensures f.(name := form.name, slug := form.slug) == form
  {
    form.(name := name, slug := Slug.FollowName(editing, form.slug, name))
  }

  /** Retyping a name while creating gives the same slug as typing it once. */
  lemma NameChangeSettles(form: PackageForm, name: string)
    ensures OnNameChange(OnNameChange(form, false, name), false, name) == OnNameChange(form, false, name)
  {}

  /** The toggle button's update: the row's id and the negated active flag, nothing else. */
  datatype Toggle = Toggle(id: string, isActive: bool)

  function ToggleCommand(row: PackageRow): (t: Toggle)
    ensures t.id == row.id && t.isActive != row.isActive
  {
    Toggle(row.id, !row.isActive)
  }

  /** `update({ is_active }).eq("id", id)` applied to one row: only the matching row changes, and only its flag. */
  function ApplyToggle(row: PackageRow, t: Toggle): (r: PackageRow)
    ensures t.id == row.id ==> r.isActive == t.isActive
    ensures t.id != row.id ==> r == row
    ensures r.(isActive := row.isActive) == row
  {
    if t.id == row.id then row.(isActive := t.isActive) else row
  }

  /** Toggling twice restores the row. */
  lemma ToggleTwice(row: PackageRow)
    ensures ApplyToggle(ApplyToggle(row, ToggleCommand(row)), ToggleCommand(ApplyToggle(row, ToggleCommand(row)))) == row
  {}
}
