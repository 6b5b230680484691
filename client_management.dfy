/** The client-management screen: it shows either the directory or one
    client's details, and remembers which client was chosen. */
module ClientManagement {
  import opened Common

  /** The child component on screen. */
  datatype Child = ListChild | DetailsChild(clientId: Option<string>)

  class Management {
    var currentView: string
    var selectedClientId: Option<string>

    /** The view is one of the two, and a client is selected exactly while
        the details are shown. */
    ghost predicate Valid()
      reads this
    {
      && (currentView == "list" || currentView == "details")
      && (currentView == "details" <==> selectedClientId.Some?)
    }

    /** The list, nothing selected. */
    constructor ()
      ensures Valid()
      ensures currentView == "list" && selectedClientId == None
    {
      currentView := "list";
      selectedClientId := None;
    }

    /** "View Details" on a directory row. */
    method ViewDetails(clientId: string)
      modifies this
      ensures Valid()
      ensures currentView == "details" && selectedClientId == Some(clientId)
    {
      selectedClientId := Some(clientId);
      currentView := "details";
    }

    /** "Back to Clients": the initial state again, whatever came before. */
    method BackToList()
      modifies this
      ensures Valid()
      ensures currentView == "list" && selectedClientId == None
    {
      currentView := "list";
      selectedClientId := None;
    }

    /** The two conditional children: in a valid state exactly one of them,
        the details one carrying the selected id. */
    function Rendered(): (r: seq<Child>)
      reads this
      ensures Valid() ==> |r| == 1 && (r[0] == ListChild <==> selectedClientId.None?)
      ensures Valid() && selectedClientId.Some? ==> r == [DetailsChild(selectedClientId)]
    {
      (if currentView == "list" then [ListChild] else [])
      + (if currentView == "details" then [DetailsChild(selectedClientId)] else [])
    }
  }
}
