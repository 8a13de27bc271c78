/** The `Navbar` component: the search boxes, the create form and its
    visibility flags. */
module Navbar {
  import opened Tasks

  /** The create form's record. `handleChange` writes the field named by the
      input (`[name]: value`), so the record is a map from field names. */
  type FormData = map<string, string>

  /** The record the form starts with. */
  function EmptyForm(): (f: FormData)
    ensures f.Keys == {"title", "dueDate", "status"}
    ensures forall k :: k in f ==> f[k] == ""
  {
    map["title" := "", "dueDate" := "", "status" := ""]
  }

  /** The record a successful create resets the form to: the starting
      fields, every one empty, plus an empty `id` and `startDate`. */
  function ResetForm(): (f: FormData)
    ensures f.Keys == EmptyForm().Keys + {"id", "startDate"}
    ensures forall k :: k in f ==> f[k] == ""
  {
    map["id" := "", "title" := "", "startDate" := "", "dueDate" := "", "status" := ""]
  }

  /** The whole state of `Navbar`, as one value. */
  datatype NavSnapshot = NavSnapshot(showForm: bool, showMobileSearch: bool, formData: FormData)

  class NavbarState {
    var showForm: bool
    var showMobileSearch: bool
    var formData: FormData

    function Snap(): NavSnapshot
      reads this
    {
      NavSnapshot(showForm, showMobileSearch, formData)
    }

    /** Both flags start off and the form starts empty. */
    constructor ()
      ensures Snap() == NavSnapshot(false, false, EmptyForm())
    {
      showForm, showMobileSearch, formData := false, false, EmptyForm();
    }

    /** `toggleForm`, bound to the create buttons and the form's Cancel. */
    method ToggleForm()
      modifies this
      ensures Snap() == old(Snap()).(showForm := !old(showForm))
    {
      showForm := !showForm;
    }

    /** `toggleMobileSearch`. */
    method ToggleMobileSearch()
      modifies this
      ensures Snap() == old(Snap()).(showMobileSearch := !old(showMobileSearch))
    {
      showMobileSearch := !showMobileSearch;
    }

    /** `handleChange`: the named field takes the value, every other field
        keeps its presence and its value. */
    method HandleChange(name: string, value: string)
      modifies this
      ensures Snap() == old(Snap()).(formData := formData)
      ensures name in formData && formData[name] == value
      ensures forall k :: k != name ==> (k in formData <==> k in old(formData))
      ensures forall k :: k != name && k in formData ==> formData[k] == old(formData)[k]
    {
      formData := formData[name := value];
    }

    /** `handleSearchChange`: the text typed is what `onSearch` receives. */
    method HandleSearchChange(text: string) returns (forwarded: string)
      ensures forwarded == text
    {
      forwarded := text;
    }

    /** `handleSubmit`: the current record is the POST payload. When the
        request fails or answers non-ok, the error is thrown before the
        form is touched; otherwise the form closes and is reset. */
    method HandleSubmit(outcome: Outcome) returns (payload: FormData)
      modifies this
      ensures payload == old(formData)
      ensures Snap() == if outcome.Succeeded?
        then old(Snap()).(showForm := false, formData := ResetForm())
        else old(Snap())
    {
      payload := formData;
      if outcome.Succeeded? {
        showForm := false;
        formData := ResetForm();
      }
    }
  }

  /** Pressing the create toggle twice restores the state it started from. */
  method ToggleFormTwice(nav: NavbarState)
    modifies nav
    ensures nav.Snap() == old(nav.Snap())
  {
    nav.ToggleForm();
    nav.ToggleForm();
  }

  /** Pressing the mobile-search toggle twice restores the state it started from. */
  method ToggleMobileSearchTwice(nav: NavbarState)
    modifies nav
    ensures nav.Snap() == old(nav.Snap())
  {
    nav.ToggleMobileSearch();
    nav.ToggleMobileSearch();
  }
}
