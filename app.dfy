/** How `Home` composes the navigation bar: `<Navbar onSearch={setSearchQuery} />`.
    The navigation bar is handed nothing else of `Home`. */
module App {
  import opened Tasks
  import Home
  import Navbar

  /** Typing in a search box sets the query of `Home` to the raw text. */
  method TypeSearch(home: Home.HomeState, nav: Navbar.NavbarState, text: string)
    requires home.Valid()
    modifies home
    ensures home.Valid()
    ensures home.Snap() == old(home.Snap()).(searchQuery := text)
    ensures nav.Snap() == old(nav.Snap())
  {
    var query := nav.HandleSearchChange(text);
    home.SetSearchQuery(query);
  }

  /** Submitting the create form sends the record, and whatever the outcome,
      the task collection of `Home` is not patched. */
  method SubmitCreate(home: Home.HomeState, nav: Navbar.NavbarState, outcome: Outcome) returns (payload: Navbar.FormData)
    modifies nav
    ensures payload == old(nav.formData)
    ensures home.Snap() == old(home.Snap())
  {
    payload := nav.HandleSubmit(outcome);
  }
}
