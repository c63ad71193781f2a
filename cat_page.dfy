/** The modal and form logic of the cat gallery page. Two module-level
    variables decide what a form submit or a delete confirmation sends to the
    API; the request itself is returned as an `Action` instead of being
    issued. */
module CatPage {
  import opened Wrappers

  /** The JSON body the API takes for a cat (its own spelling `descreption`). */
  datatype CatFields = CatFields(name: string, descreption: string, tag: string, img: string)

  /** The values of the form inputs named `name`, `description`, `tag` and
      `image`, as `FormData` reads them. */
  datatype FormValues = FormValues(name: string, description: string, tag: string, image: string)

  /** The record an edit button hands to the modal, read from its `data-*`
      attributes. */
  datatype EditData = EditData(id: string, name: string, descreption: string, tag: string, img: string)

  /** The request a handler issues: POST, PUT or DELETE on the cats
      collection, or nothing. */
  datatype Action = Add(fields: CatFields) | Update(id: string, fields: CatFields) | Delete(id: string) | NoAction

  const EditTitle: string := "Modifier le chat"
  const AddTitle: string := "Ajouter un nouveau chat"

  /** The form after `reset()`: every input back to its default, taken to be
      empty. */
  const BlankForm: FormValues := FormValues("", "", "", "")

  /** JavaScript truthiness of an id variable: `null` and `""` are falsy. */
  predicate IsSet(id: Option<string>)
  {
    id.Some? && id.value != ""
  }

  /** The renaming from form inputs to the API's fields. */
  function FieldsOf(f: FormValues): CatFields
  {
    CatFields(f.name, f.description, f.tag, f.image)
  }

  /** The input values the edit modal is filled with. */
  function Prefill(cat: EditData): FormValues
  {
    FormValues(cat.name, cat.descreption, cat.tag, cat.img)
  }

  class Page {
    /** The cat being edited; `null` while adding. */
    var currentCatId: Option<string>
    /** The cat the confirmation dialog is about. */
    var catToDeleteId: Option<string>
    var catModalShown: bool
    var confirmModalShown: bool
    var modalTitle: string
    /** The current values of the form inputs; the user may change them. */
    var form: FormValues

    /** The page as the script loads: neither id is set (the two `let`
        declarations). That both dialogs start hidden and the inputs empty
        comes from the page's stylesheet and markup, which are not part of
        this model; they are taken as given. */
    constructor ()
      ensures currentCatId == None && catToDeleteId == None
      ensures !catModalShown && !confirmModalShown
      ensures form == BlankForm
    {
      currentCatId := None;
      catToDeleteId := None;
      catModalShown := false;
      confirmModalShown := false;
      modalTitle := AddTitle;  // placeholder: the load-time title comes from the page markup
      form := BlankForm;
    }

    /** `openCatModal(cat)`: with a cat, edit it (its id becomes the current
        one and the inputs show its values); without, add a new one. The
        delete confirmation is not touched. */
    method OpenCatModal(cat: Option<EditData>)
      modifies this`currentCatId, this`modalTitle, this`form, this`catModalShown
      ensures catModalShown
      ensures cat.Some? ==> currentCatId == Some(cat.value.id) && modalTitle == EditTitle && form == Prefill(cat.value)
      ensures cat.None? ==> currentCatId == None && modalTitle == AddTitle && form == BlankForm
      ensures catToDeleteId == old(catToDeleteId) && confirmModalShown == old(confirmModalShown)
    {
      if cat.Some? {
        currentCatId := Some(cat.value.id);
        modalTitle := EditTitle;
        form := Prefill(cat.value);
      } else {
        currentCatId := None;
        modalTitle := AddTitle;
        form := BlankForm;
      }
      catModalShown := true;
    }

    /** `openDeleteConfirm(id)`: remember which cat to delete and show the
        dialog; the edit state is not touched. */
    method OpenDeleteConfirm(id: string)
      modifies this`catToDeleteId, this`confirmModalShown
      ensures catToDeleteId == Some(id) && confirmModalShown
      ensures currentCatId == old(currentCatId) && form == old(form) && catModalShown == old(catModalShown)
    {
      catToDeleteId := Some(id);
      confirmModalShown := true;
    }

    /** `closeModals()`: hide both dialogs and forget both ids. */
    method CloseModals()
      modifies this`catModalShown, this`confirmModalShown, this`currentCatId, this`catToDeleteId
      ensures !catModalShown && !confirmModalShown
      ensures currentCatId == None && catToDeleteId == None
      ensures form == old(form)
    {
      catModalShown := false;
      confirmModalShown := false;
      currentCatId := None;
      catToDeleteId := None;
    }

    /** `handleFormSubmit`: a PUT of the form's values to the current cat
        when one is set, a POST of them otherwise. */
    method HandleFormSubmit() returns (a: Action)
      ensures a.Update? <==> IsSet(currentCatId)
      ensures a.Add? <==> !IsSet(currentCatId)
      ensures a.Update? ==> a.id == currentCatId.value
      ensures (a.Add? || a.Update?) && a.fields == FieldsOf(form)
      ensures a.fields.descreption == form.description && a.fields.img == form.image
    {
      var catData := FieldsOf(form);
      if IsSet(currentCatId) {
        a := Update(currentCatId.value, catData);
      } else {
        a := Add(catData);
      }
    }

    /** The confirm button of the delete dialog: a DELETE of the remembered
        cat when one is set, nothing otherwise. */
    method ConfirmDelete() returns (a: Action)
      ensures a.Delete? <==> IsSet(catToDeleteId)
      ensures a.Delete? ==> a.id == catToDeleteId.value
      ensures a.Delete? || a == NoAction
    {
      if IsSet(catToDeleteId) {
        a := Delete(catToDeleteId.value);
      } else {
        a := NoAction;
      }
    }
  }

  // -----------------------------------------------------------------------
  // What the event wiring of the page makes of these handlers

  /** The add button, the user's input, then submit: a POST of that input. */
  method AddFlow(p: Page, typed: FormValues) returns (a: Action)
    modifies p
    ensures a == Add(FieldsOf(typed))
  {
    p.OpenCatModal(None);
    p.form := typed;
    a := p.HandleFormSubmit();
  }

  /** An edit button, then submit with the inputs unchanged: a PUT of the
      same record to its id, unless the id is empty, which is falsy and turns
      the submit into a POST. */
  method EditFlow(p: Page, cat: EditData) returns (a: Action)
    modifies p
    ensures cat.id != "" ==> a == Update(cat.id, CatFields(cat.name, cat.descreption, cat.tag, cat.img))
    ensures cat.id == "" ==> a == Add(CatFields(cat.name, cat.descreption, cat.tag, cat.img))
  {
    p.OpenCatModal(Some(cat));
    a := p.HandleFormSubmit();
  }

  /** A delete button, then confirm: a DELETE of that id, whatever cat the
      edit modal holds, and the edit state is left as it was. */
  method DeleteFlow(p: Page, id: string) returns (a: Action)
    modifies p
    ensures id != "" ==> a == Delete(id)
    ensures id == "" ==> a == NoAction
    ensures p.currentCatId == old(p.currentCatId)
  {
    p.OpenDeleteConfirm(id);
    a := p.ConfirmDelete();
  }

  /** After `closeModals` (cancel, a click outside, or a request that
      succeeded) a submit is a POST and a confirmation sends nothing. */
  method CloseFlow(p: Page) returns (submit: Action, confirm: Action)
    modifies p
    ensures submit == Add(FieldsOf(old(p.form)))
    ensures confirm == NoAction
  {
    p.CloseModals();
    submit := p.HandleFormSubmit();
    confirm := p.ConfirmDelete();
  }
}
