/**
 * The server-backed categories page (frontend/src/pages/Categories.jsx): the
 * modal form, saving it as an update or a create through the API, and
 * deleting. The page's React state is a class whose fields the handlers update;
 * what the API answers is a parameter of each handler (`None` when the call
 * fails).
 */
module CategoriesPage {
  import opened Wrappers
  import JsText
  import ListOps

  /** A category as the API returns it (`kind` is its `type`). */
  datatype Category = Category(id: int, name: string, kind: string, description: string)

  /** The modal's form (`kind` is its `type` field). */
  datatype Form = Form(name: string, kind: string)

  const BlankForm := Form("", "expense")

  /** The body both `create` and `update` send: no type, an empty description. */
  datatype CategoryBody = CategoryBody(name: string, description: string)

  /** The API call a save makes, if any. */
  datatype SaveCall = NoCall | UpdateCall(id: int, body: CategoryBody) | CreateCall(body: CategoryBody)

  /** `editingId` is truthy: set, and not the id 0. */
  predicate IsEditing(editingId: Option<int>) {
    editingId.Some? && editingId.value != 0
  }

  /** `categories.map(cat => cat.id === id ? updated : cat)`. */
  function ReplaceById(cs: seq<Category>, id: int, updated: Category): (r: seq<Category>)
    ensures |r| == |cs|
    ensures forall i :: 0 <= i < |cs| && cs[i].id == id ==> r[i] == updated
    ensures forall i :: 0 <= i < |cs| && cs[i].id != id ==> r[i] == cs[i]
  {
    ListOps.MapWhere(cs, (c: Category) => c.id == id, (c: Category) => updated)
  }

  /** `categories.filter(cat => cat.id !== id)`. */
  function RemoveById(cs: seq<Category>, id: int): (r: seq<Category>)
    ensures forall i :: 0 <= i < |r| ==> r[i].id != id && r[i] in cs
    ensures forall i :: 0 <= i < |cs| && cs[i].id != id ==> cs[i] in r
  {
    ListOps.FilterMembers(cs, (c: Category) => c.id != id);
    ListOps.Filter(cs, (c: Category) => c.id != id)
  }

  /** Replacing an id the list does not hold changes nothing. */
  lemma {:induction false} ReplaceAbsentId(cs: seq<Category>, id: int, updated: Category)
    requires forall i :: 0 <= i < |cs| ==> cs[i].id != id
    ensures ReplaceById(cs, id, updated) == cs
  {
    var r := ReplaceById(cs, id, updated);
    assert |r| == |cs|;
    forall i | 0 <= i < |cs| ensures r[i] == cs[i] {
    }
  }

  /** Removal keeps the survivors in their original order, part by part. */
  lemma RemoveByIdAppend(a: seq<Category>, b: seq<Category>, id: int)
    ensures RemoveById(a + b, id) == RemoveById(a, id) + RemoveById(b, id)
  {
    ListOps.FilterAppend(a, b, (c: Category) => c.id != id);
  }

  /** Removal drops exactly the categories with that id. */
  lemma RemoveByIdLength(cs: seq<Category>, id: int)
    ensures |RemoveById(cs, id)| == |cs| - ListOps.CountWhere(cs, (c: Category) => c.id == id)
  {
    ListOps.FilterLength(cs, (c: Category) => c.id != id);
    CountComplement(cs, id);
  }

  lemma {:induction false} CountComplement(cs: seq<Category>, id: int)
    ensures ListOps.CountWhere(cs, (c: Category) => c.id != id) + ListOps.CountWhere(cs, (c: Category) => c.id == id) == |cs|
  {
    if cs != [] {
      CountComplement(cs[1..], id);
    }
  }

  class Page {
    var categories: seq<Category>
    var loading: bool
    var modalOpen: bool
    var editingId: Option<int>
    var saving: bool
    var form: Form

    constructor ()
      ensures categories == [] && loading && !modalOpen && editingId == None && !saving && form == BlankForm
    {
      categories := [];
      loading := true;
      modalOpen := false;
      editingId := None;
      saving := false;
      form := BlankForm;
    }

    /** `loadCategories`: the list the API returned, or the old one when the
        call failed; loading ends either way. */
    method Load(data: Option<seq<Category>>)
      modifies this
      ensures categories == (if data.Some? then data.value else old(categories))
      ensures !loading
      ensures modalOpen == old(modalOpen) && editingId == old(editingId) && saving == old(saving) && form == old(form)
    {
      if data.Some? {
        categories := data.value;
      }
      loading := false;
    }

    /** `openModal(category)`: an existing category fills the form and becomes
        the one being edited; without one the form is blank. */
    method OpenModal(category: Option<Category>)
      modifies this
      ensures category.Some? ==> form == Form(category.value.name, category.value.kind) && editingId == Some(category.value.id)
      ensures category.None? ==> form == BlankForm && editingId == None
      ensures modalOpen
      ensures categories == old(categories) && loading == old(loading) && saving == old(saving)
    {
      if category.Some? {
        form := Form(category.value.name, category.value.kind);
        editingId := Some(category.value.id);
      } else {
        form := BlankForm;
        editingId := None;
      }
      modalOpen := true;
    }

    /** `closeModal`. */
    method CloseModal()
      modifies this
      ensures !modalOpen && form == BlankForm && editingId == None
      ensures categories == old(categories) && loading == old(loading) && saving == old(saving)
    {
      modalOpen := false;
      form := BlankForm;
      editingId := None;
    }

    /** `handleSave`: returns the API call made; `reply` is what that call
        answers (`None` when it throws, which leaves the list and the modal
        as they were). */
    method HandleSave(reply: Option<Category>) returns (call: SaveCall)
      modifies this
      ensures JsText.Trim(old(form).name) == "" ==>
                call == NoCall && categories == old(categories) && form == old(form)
                && editingId == old(editingId) && modalOpen == old(modalOpen) && saving == old(saving)
      ensures JsText.Trim(old(form).name) != "" && IsEditing(old(editingId)) ==>
                call == UpdateCall(old(editingId).value, CategoryBody(JsText.Trim(old(form).name), ""))
      ensures JsText.Trim(old(form).name) != "" && !IsEditing(old(editingId)) ==>
                call == CreateCall(CategoryBody(JsText.Trim(old(form).name), ""))
      ensures JsText.Trim(old(form).name) != "" && reply.Some? ==>
                && categories == (if IsEditing(old(editingId))
                                  then ReplaceById(old(categories), old(editingId).value, reply.value)
                                  else old(categories) + [reply.value])
                && !modalOpen && form == BlankForm && editingId == None && !saving
      ensures JsText.Trim(old(form).name) != "" && reply.None? ==>
                categories == old(categories) && form == old(form) && editingId == old(editingId)
                && modalOpen == old(modalOpen) && !saving
      ensures loading == old(loading)
    {
      var name := JsText.Trim(form.name);
      if name == "" {
        return NoCall;
      }
      saving := true;
      var body := CategoryBody(name, "");
      var editing := IsEditing(editingId);
      call := if editing then UpdateCall(editingId.value, body) else CreateCall(body);
      if reply.Some? {
        categories := if editing then ReplaceById(categories, editingId.value, reply.value)
                      else categories + [reply.value];
        CloseModal();
      }
      saving := false;
    }

    /** `handleDelete`: `confirmed` is the dialog's answer and `deleted` whether
        the API call succeeded; returns whether the call was made. */
    method HandleDelete(id: int, confirmed: bool, deleted: bool) returns (called: bool)
      modifies this
      ensures called == confirmed
      ensures categories == (if confirmed && deleted then RemoveById(old(categories), id) else old(categories))
      ensures form == old(form) && editingId == old(editingId) && modalOpen == old(modalOpen)
      ensures saving == old(saving) && loading == old(loading)
    {
      if !confirmed {
        return false;
      }
      called := true;
      if deleted {
        categories := RemoveById(categories, id);
      }
    }
  }
}
