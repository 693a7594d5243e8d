/**
 * The admin room-categories page: the form, the save (the form itself is the
 * payload), the edit prefill, the slug-on-create rule, the active toggle.
 */
module RoomsAdmin {
  import opened Common
  import Text
  import Slug
  import AdminDialog

  /** A `room_categories` row as the page reads it. */
  datatype RoomCategory = RoomCategory(
    id: string,
    name: string,
    slug: string,
    description: Option<string>,
    maxAdults: int,
    maxChildren: int,
    baseOccupancy: int,
    basePricePerNight: real,
    extraAdultPrice: real,
    extraChildPrice: real,
    totalRooms: int,
    isActive: bool,
    displayOrder: Option<int>)

  datatype RoomForm = RoomForm(
    name: string,
    slug: string,
    description: string,
    maxAdults: int,
    maxChildren: int,
    baseOccupancy: int,
    basePricePerNight: real,
    extraAdultPrice: real,
    extraChildPrice: real,
    totalRooms: int,
    isActive: bool)

  /** The object a save writes: the form spread with `editingRoom?.id`. */
  datatype RoomPayload = RoomPayload(id: Option<string>, form: RoomForm)

  function DefaultForm(): (f: RoomForm)
    ensures f.name == "" && f.slug == "" && f.description == ""
    ensures f.maxAdults == 2 && f.maxChildren == 1 && f.baseOccupancy == 2
    ensures f.basePricePerNight == 5000.0 && f.extraAdultPrice == 1000.0 && f.extraChildPrice == 500.0
    ensures f.totalRooms == 1 && f.isActive
  {
    RoomForm("", "", "", 2, 1, 2, 5000.0, 1000.0, 500.0, 1, true)
  }

  /** `handleEdit`'s prefill: a null description becomes "", every other field is copied. */
  function Prefill(room: RoomCategory): (f: RoomForm)
    ensures f.name == room.name && f.slug == room.slug
    ensures f.description == "" <==> room.description.None? || room.description == Some("")
    ensures room.description.Some? ==> f.description == room.description.value
    ensures f.maxAdults == room.maxAdults && f.maxChildren == room.maxChildren
    ensures f.baseOccupancy == room.baseOccupancy && f.totalRooms == room.totalRooms
    ensures f.basePricePerNight == room.basePricePerNight
    ensures f.extraAdultPrice == room.extraAdultPrice && f.extraChildPrice == room.extraChildPrice
    ensures f.isActive == room.isActive
  {
    RoomForm(room.name, room.slug, Text.NullToEmpty(room.description), room.maxAdults, room.maxChildren,
             room.baseOccupancy, room.basePricePerNight, room.extraAdultPrice, room.extraChildPrice,
             room.totalRooms, room.isActive)
  }

  /** The submit: the unchanged form, as an update of the edited room or an insert of a new one. */
  function Submit(d: AdminDialog.Dialog<RoomCategory, RoomForm>): (s: AdminDialog.Save<RoomPayload>)
    ensures s.payload.form == d.form
    ensures s.Update? <==> d.editing.Some? && d.editing.value.id != ""
    ensures s.Update? ==> s.id == d.editing.value.id && s.payload.id == Some(s.id)
    ensures d.editing.None? ==> s.Insert? && s.payload.id.None?
  {
    var id := AdminDialog.EditedId(d, (r: RoomCategory) => r.id);
    AdminDialog.ChooseSave(id, RoomPayload(id, d.form))
  }

  /** The row an update with this payload leaves behind (display order is not in the form). */
  function ApplyUpdate(room: RoomCategory, p: RoomPayload): (r: RoomCategory)
    ensures r.id == room.id && r.displayOrder == room.displayOrder
    ensures Prefill(r) == p.form
    ensures r.description == Some(p.form.description)
  {
    var f := p.form;
    room.(name := f.name, slug := f.slug, description := Some(f.description), maxAdults := f.maxAdults,
          maxChildren := f.maxChildren, baseOccupancy := f.baseOccupancy,
          basePricePerNight := f.basePricePerNight, extraAdultPrice := f.extraAdultPrice,
          extraChildPrice := f.extraChildPrice, totalRooms := f.totalRooms, isActive := f.isActive)
  }

  /** Editing a room and saving without changes leaves it unchanged exactly when its description is not null. */
  lemma EditSaveRoundTrip(room: RoomCategory)
    ensures ApplyUpdate(room, RoomPayload(Some(room.id), Prefill(room))) == room <==> room.description.Some?
  {}

  /** Saving a prefilled form back reads back as the same form. */
  lemma PrefillSaveStable(room: RoomCategory, form: RoomForm)
    ensures Prefill(ApplyUpdate(room, RoomPayload(Some(room.id), form))) == form
  {}

  /** Typing a name: the slug follows it only while no room is being edited. */
  function OnNameChange(d: AdminDialog.Dialog<RoomCategory, RoomForm>, name: string): (f: RoomForm)
    ensures f.name == name
    ensures d.editing.Some? ==> f.slug == d.form.slug
    ensures d.editing.None? ==> Slug.IsSlug(f.slug) && f.slug == Slug.GenerateSlug(name)
    ensures f.(name := d.form.name, slug := d.form.slug) == d.form
  {
    d.form.(name := name, slug := Slug.FollowName(d.editing.Some?, d.form.slug, name))
  }

  /** The toggle button's update: `{ is_active: !room.is_active }` for the room's id. */
  datatype Toggle = Toggle(id: string, isActive: bool)

  function ToggleCommand(room: RoomCategory): (t: Toggle)
    ensures t.id == room.id && t.isActive == !room.isActive
  {
    Toggle(room.id, !room.isActive)
  }

  /** The toggle applied to the list: only the room with that id changes, and only its flag. */
  function ApplyToggle(rooms: seq<RoomCategory>, t: Toggle): (r: seq<RoomCategory>)
    ensures |r| == |rooms|
    ensures forall i :: 0 <= i < |r| && rooms[i].id == t.id ==> r[i] == rooms[i].(isActive := t.isActive)
    ensures forall i :: 0 <= i < |r| && rooms[i].id != t.id ==> r[i] == rooms[i]
  {
    seq(|rooms|, i requires 0 <= i < |rooms| => if rooms[i].id == t.id then rooms[i].(isActive := t.isActive) else rooms[i])
  }

  /** With distinct ids, toggling a listed room twice restores the list. */
  lemma ToggleTwice(rooms: seq<RoomCategory>, k: nat)
    requires k < |rooms|
    requires forall i, j :: 0 <= i < j < |rooms| ==> rooms[i].id != rooms[j].id
    ensures ApplyToggle(ApplyToggle(rooms, ToggleCommand(rooms[k])), ToggleCommand(ApplyToggle(rooms, ToggleCommand(rooms[k]))[k])) == rooms
  {
    var once := ApplyToggle(rooms, ToggleCommand(rooms[k]));
    var twice := ApplyToggle(once, ToggleCommand(once[k]));
    forall i | 0 <= i < |rooms|
      ensures twice[i] == rooms[i]
    {
      if i != k {
        assert rooms[i].id != rooms[k].id;
      }
    }
  }

  /**
   * A successful save, or closing the dialog through `onOpenChange`, returns the
   * page to creating with the default form; the Cancel button as written keeps
   * the edited room and its form.
   */
  lemma ResetAfterSaveOrClose(d: AdminDialog.Dialog<RoomCategory, RoomForm>)
    ensures AdminDialog.SaveSucceeded(d, DefaultForm()).editing.None?
    ensures AdminDialog.SaveSucceeded(d, DefaultForm()).form == DefaultForm()
    ensures AdminDialog.OpenChange(d, false, DefaultForm()) == AdminDialog.Initial(DefaultForm())
    ensures AdminDialog.Cancel(d).editing == d.editing && AdminDialog.Cancel(d).form == d.form
  {}
}
