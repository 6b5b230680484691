/** The application shell: the session restored from the browser's
    key/value store, login and logout, navigation between the main views
    and the mobile sidebar. */
module SuperAdminApp {
  import opened Common

  const TokenKey: string := "superAdminToken"
  const DataKey: string := "superAdminData"

  /** `localStorage.getItem(key)`: null for a missing key. */
  function GetItem(store: map<string, string>, key: string): (r: Option<string>)
    ensures r.Some? <==> key in store
    ensures r.Some? ==> r.value == store[key]
  {
    if key in store then Some(store[key]) else None
  }

  /** `token && adminData`: both the token and the profile are stored and
      non-empty. */
  function HasSession(store: map<string, string>): (r: bool)
    ensures r <==> TokenKey in store && DataKey in store && store[TokenKey] != "" && store[DataKey] != ""
  {
    Truthy(GetItem(store, TokenKey)) && Truthy(GetItem(store, DataKey))
  }

  /** After logout's two removals no session can be restored. */
  lemma LogoutEndsSession(store: map<string, string>)
    ensures !HasSession(store - {TokenKey, DataKey})
    ensures forall k :: k in store && k != TokenKey && k != DataKey ==>
      GetItem(store - {TokenKey, DataKey}, k) == GetItem(store, k)
  {
  }

  /** What the shell puts on screen. */
  datatype Screen = LoginScreen | MenuButton | Overlay | Sidebar(open: bool)
                  | DashboardView | ClientsView | AgentsView | ConversationsView

  class App {
    var isAuthenticated: bool
    var currentView: string
    /** The stored profile; the model keeps the stored text itself. */
    var superAdmin: Option<string>
    var sidebarOpen: bool
    /** The browser's key/value store. */
    var store: map<string, string>

    /** The `useState` defaults, over whatever the store holds. */
    constructor (initial: map<string, string>)
      ensures !isAuthenticated && currentView == "dashboard"
      ensures superAdmin == None && !sidebarOpen && store == initial
    {
      isAuthenticated := false;
      currentView := "dashboard";
      superAdmin := None;
      sidebarOpen := false;
      store := initial;
    }

    /** The mount effect: a stored session authenticates and loads the
        profile; otherwise nothing changes. */
    method Mount()
      modifies this
      ensures isAuthenticated == (old(isAuthenticated) || HasSession(store))
      ensures superAdmin == if HasSession(store) then GetItem(store, DataKey) else old(superAdmin)
      ensures store == old(store) && currentView == old(currentView) && sidebarOpen == old(sidebarOpen)
    {
      var token := GetItem(store, TokenKey);
      var adminData := GetItem(store, DataKey);
      if Truthy(token) && Truthy(adminData) {
        isAuthenticated := true;
        superAdmin := adminData;
      }
    }

    /** Called by the login form after it has stored the session:
        authenticated in any case, the profile replaced only when one is
        stored. */
    method HandleLogin()
      modifies this
      ensures isAuthenticated
      ensures var data := GetItem(store, DataKey);
        superAdmin == if Truthy(data) then data else old(superAdmin)
      ensures store == old(store) && currentView == old(currentView) && sidebarOpen == old(sidebarOpen)
    {
      isAuthenticated := true;
      var adminData := GetItem(store, DataKey);
      if Truthy(adminData) {
        superAdmin := adminData;
      }
    }

    /** Removes exactly the two session keys, forgets the profile and goes
        back to the dashboard. */
    method HandleLogout()
      modifies this
      ensures store == old(store) - {TokenKey, DataKey}
      ensures TokenKey !in store && DataKey !in store
      ensures forall k :: k in old(store) && k != TokenKey && k != DataKey ==> k in store && store[k] == old(store)[k]
      ensures !isAuthenticated && superAdmin == None && currentView == "dashboard"
      ensures sidebarOpen == old(sidebarOpen)
    {
      store := store - {TokenKey};
      store := store - {DataKey};
      isAuthenticated := false;
      superAdmin := None;
      currentView := "dashboard";
    }

    /** A sidebar entry: the chosen view, and the sidebar closes. */
    method HandleNavigate(view: string)
      modifies this
      ensures currentView == view && !sidebarOpen
      ensures isAuthenticated == old(isAuthenticated) && superAdmin == old(superAdmin) && store == old(store)
    {
      currentView := view;
      sidebarOpen := false;
    }

    /** The mobile menu button. */
    method ToggleSidebar()
      modifies this
      ensures sidebarOpen == !old(sidebarOpen)
      ensures isAuthenticated == old(isAuthenticated) && currentView == old(currentView)
      ensures superAdmin == old(superAdmin) && store == old(store)
    {
      sidebarOpen := !sidebarOpen;
    }

    /** A click on the dimmed overlay. */
    method CloseSidebar()
      modifies this
      ensures !sidebarOpen
      ensures isAuthenticated == old(isAuthenticated) && currentView == old(currentView)
      ensures superAdmin == old(superAdmin) && store == old(store)
    {
      sidebarOpen := false;
    }

    /** The view for the current view id: at most one, and none exactly for
        an id other than the four known ones. */
    function MainContent(): (r: seq<Screen>)
      reads this
      ensures |r| <= 1
      ensures r == [] <==> currentView !in {"dashboard", "clients", "agents", "conversations"}
      ensures ClientsView in r <==> currentView == "clients"
      ensures DashboardView in r <==> currentView == "dashboard"
    {
      if currentView == "dashboard" then [DashboardView]
      else if currentView == "clients" then [ClientsView]
      else if currentView == "agents" then [AgentsView]
      else if currentView == "conversations" then [ConversationsView]
      else []
    }

    /** Unauthenticated, the login form alone; authenticated, never the
        login form, always the menu button and the sidebar, the overlay
        exactly while the sidebar is open, and at most one main view. */
    function Screens(): (r: seq<Screen>)
      reads this
      ensures !isAuthenticated ==> r == [LoginScreen]
      ensures LoginScreen in r <==> !isAuthenticated
      ensures isAuthenticated ==> MenuButton in r && Sidebar(sidebarOpen) in r
      ensures isAuthenticated ==> (Overlay in r <==> sidebarOpen)
      ensures isAuthenticated ==> |r| <= 4
    {
      if !isAuthenticated then [LoginScreen]
      else
        [MenuButton] + (if sidebarOpen then [Overlay] else []) + [Sidebar(sidebarOpen)] + MainContent()
    }
  }
}
