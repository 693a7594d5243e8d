/**
 * The edit-dialog pattern every admin CRUD page repeats: a dialog flag, the
 * row being edited (none while creating), and the form state; a submit turns
 * into an `update(...).eq("id", id)` when an id is present and an `insert`
 * otherwise.
 */
module AdminDialog {
  import opened Common

  /** `dialogOpen`, `editingX` and `formData` of a page. */
  datatype Dialog<Row, Form> = Dialog(open: bool, editing: Option<Row>, form: Form)

  /** The page as first rendered: closed, nothing edited, the default form. */
  function Initial<Row, Form>(default: Form): (d: Dialog<Row, Form>)
    ensures !d.open && d.editing.None? && d.form == default
  {
    Dialog(false, None, default)
  }

  /** `handleEdit(row)`: remember the row, prefill the form from it, open the dialog. */
  function StartEdit<Row, Form>(d: Dialog<Row, Form>, row: Row, prefill: Row -> Form): (r: Dialog<Row, Form>)
    ensures r.open && r.editing == Some(row) && r.form == prefill(row)
  {
    Dialog(true, Some(row), prefill(row))
  }

  /**
   * `onOpenChange(open)`, which the dialog calls for its own controls (the
   * trigger, Escape, an outside click, the close icon): closing this way
   * forgets the edited row and restores the default form; opening keeps both.
   */
  function OpenChange<Row, Form>(d: Dialog<Row, Form>, open: bool, default: Form): (r: Dialog<Row, Form>)
    ensures r.open == open
    ensures !open ==> r == Initial(default)
    ensures open ==> r.editing == d.editing && r.form == d.form
  {
    if open then d.(open := true) else Dialog(false, None, default)
  }

  /**
   * The Cancel button as written: `setXDialogOpen(false)` only. A controlled
   * dialog does not report a change of its `open` prop through `onOpenChange`,
   * so the edited row and the form stay as they were.
   */
  function Cancel<Row, Form>(d: Dialog<Row, Form>): (r: Dialog<Row, Form>)
    ensures !r.open
    ensures r.editing == d.editing && r.form == d.form
  {
    d.(open := false)
  }

  /** The Cancel button as evidently intended: the same close as the dialog's own controls. */
  function GuardedCancel<Row, Form>(d: Dialog<Row, Form>, default: Form): (r: Dialog<Row, Form>)
    ensures r == Initial(default)
  {
    OpenChange(d, false, default)
  }

  /** `onSuccess` of a save: close, forget the edited row, restore the default form. */
  function SaveSucceeded<Row, Form>(d: Dialog<Row, Form>, default: Form): (r: Dialog<Row, Form>)
    ensures r == Initial(default)
  {
    Dialog(false, None, default)
  }

  /** The database write a save issues. */
  datatype Save<Payload> = Insert(payload: Payload) | Update(id: string, payload: Payload)

  /** `if (data.id) update(payload).eq("id", data.id) else insert(payload)`: exactly one of the two, decided by the id. */
  function ChooseSave<Payload>(id: Option<string>, payload: Payload): (s: Save<Payload>)
    ensures s.Update? <==> id.Some? && id.value != ""
    ensures s.Insert? <==> id.None? || id.value == ""
    ensures s.Update? ==> s.id == id.value
    ensures s.payload == payload
  {
    if id.Some? && id.value != "" then Update(id.value, payload) else Insert(payload)
  }

  /** The id passed to the save: `editingX?.id`. */
  function EditedId<Row, Form>(d: Dialog<Row, Form>, rowId: Row -> string): (id: Option<string>)
    ensures d.editing.None? ==> id.None?
    ensures d.editing.Some? ==> id == Some(rowId(d.editing.value))
  {
    if d.editing.Some? then Some(rowId(d.editing.value)) else None
  }

  /**
   * After a save succeeds, or the dialog is closed through `onOpenChange` or the
   * corrected Cancel, the next submit is an insert again.
   */
  lemma ClosingReturnsToCreate<Row, Form, Payload>(d: Dialog<Row, Form>, default: Form, open: bool,
                                                   rowId: Row -> string, payload: Payload)
    requires !open
    ensures ChooseSave(EditedId(SaveSucceeded(d, default), rowId), payload).Insert?
    ensures ChooseSave(EditedId(OpenChange(d, open, default), rowId), payload).Insert?
    ensures ChooseSave(EditedId(GuardedCancel(d, default), rowId), payload).Insert?
  {}

  /**
   * As written, Edit, then Cancel, then the Add trigger reopens the dialog on the
   * edited row's form, and the save updates that row instead of inserting.
   */
  lemma CancelThenAddUpdatesEditedRow<Row, Form, Payload>(d: Dialog<Row, Form>, row: Row, prefill: Row -> Form,
                                                          default: Form, rowId: Row -> string, payload: Payload)
    requires rowId(row) != ""
    ensures var reopened := OpenChange(Cancel(StartEdit(d, row, prefill)), true, default);
            && reopened.open && reopened.editing == Some(row) && reopened.form == prefill(row)
            && ChooseSave(EditedId(reopened, rowId), payload) == Update(rowId(row), payload)
  {}

  /** With the corrected Cancel, the same sequence opens the default form and the save inserts. */
  lemma GuardedCancelThenAddCreates<Row, Form, Payload>(d: Dialog<Row, Form>, row: Row, prefill: Row -> Form,
                                                        default: Form, rowId: Row -> string, payload: Payload)
    ensures var reopened := OpenChange(GuardedCancel(StartEdit(d, row, prefill), default), true, default);
            && reopened.open && reopened.editing.None? && reopened.form == default
            && ChooseSave(EditedId(reopened, rowId), payload) == Insert(payload)
  {}
}
