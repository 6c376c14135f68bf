/** The user registry and session routing of main.py.

    The registry maps user names to password hashes; it is loaded from the
    users database file when the application starts and written back after
    every successful registration. The session holds whether someone is
    logged in and under which name, and decides which menu the sidebar
    offers. The password hash (SHA-256 of the encoded password, as a hex
    string) is a parameter: a fixed function from strings to strings. */
module Accounts {
  import opened Wrappers

  /** The pages a sidebar menu can offer. */
  datatype Page = Profile | ZoneSetup | PlateDatabase | VideoProcessing

  /** What the application shows: the login and registration page, or a
      personal account with its menu of pages. */
  datatype Screen = LoginPage | Account(pages: seq<Page>)

  const AdminName := "admin"

  /** The menu of a logged-in user: the administrator's four pages for the
      name "admin" exactly, the profile and video pages for everyone else. */
  function MenuFor(name: string): (pages: seq<Page>)
    ensures |pages| == 4 <==> name == AdminName
    ensures |pages| == 2 <==> name != AdminName
    ensures pages[0] == Profile && pages[|pages| - 1] == VideoProcessing
    ensures (ZoneSetup in pages || PlateDatabase in pages) <==> name == AdminName
  {
    if name == AdminName then [Profile, ZoneSetup, PlateDatabase, VideoProcessing]
    else [Profile, VideoProcessing]
  }

  class App {
    /** The password hash. */
    const hash: string -> string
    /** The registry in memory. */
    var users: map<string, string>
    /** The users database file: absent, or the registry last written. */
    var saved: Option<map<string, string>>
    var loggedIn: bool
    var username: Option<string>

    /** The database file always holds the registry, unless there is no
        file and the registry is still empty; a session is logged in exactly
        when it has a user name, and that name is registered. */
    predicate Valid()
      reads this
    {
      (saved == Some(users) || (saved == None && users == map[]))
      && (loggedIn <==> username.Some?)
      && (loggedIn ==> username.value in users)
    }

    /** Start-up: `load_users` reads the database file when there is one and
        an empty registry otherwise; a new session is not logged in. */
    constructor (hash: string -> string, file: Option<map<string, string>>)
      ensures Valid()
      ensures this.hash == hash && saved == file
      ensures users == (if file.Some? then file.value else map[])
      ensures !loggedIn && username == None
    {
      this.hash := hash;
      users := if file.Some? then file.value else map[];
      saved := file;
      loggedIn := false;
      username := None;
    }

    /** `authenticate_user`: the name is registered and its stored hash is
        the hash of the password. */
    predicate Authenticates(name: string, password: string)
      reads this
      ensures Authenticates(name, password) ==> name in users
    {
      name in users && users[name] == hash(password)
    }

    /** `register_user`: a name already taken is refused and nothing
        changes; any other name, the empty one and "admin" included, is bound
        to the hash of the password and the registry is saved. */
    method RegisterUser(name: string, password: string) returns (ok: bool)
      requires Valid()
      modifies this
      ensures Valid()
      ensures ok <==> name !in old(users)
      ensures ok ==> users == old(users)[name := hash(password)] && saved == Some(users)
      ensures !ok ==> users == old(users) && saved == old(saved)
      ensures ok ==> Authenticates(name, password)
      ensures forall other, p :: other != name ==>
        (Authenticates(other, p) <==> old(Authenticates(other, p)))
      ensures loggedIn == old(loggedIn) && username == old(username)
    {
      if name in users {
        return false;
      }
      users := users[name := hash(password)];
      saved := Some(users);
      ok := true;
    }

    /** The login button: on success the session is logged in under the
        given name; on failure nothing changes. */
    method Login(name: string, password: string) returns (ok: bool)
      requires Valid()
      modifies this
      ensures Valid()
      ensures ok == Authenticates(name, password)
      ensures ok ==> loggedIn && username == Some(name)
      ensures !ok ==> loggedIn == old(loggedIn) && username == old(username)
      ensures users == old(users) && saved == old(saved)
    {
      ok := Authenticates(name, password);
      if ok {
        loggedIn := true;
        username := Some(name);
      }
    }

    /** The logout button of either account page. */
    method Logout()
      requires Valid()
      modifies this
      ensures Valid()
      ensures !loggedIn && username == None
      ensures users == old(users) && saved == old(saved)
    {
      loggedIn := false;
      username := None;
    }

    /** What `main` shows for the current session. */
    function CurrentScreen(): (s: Screen)
      requires Valid()
      reads this
      ensures s.LoginPage? <==> !loggedIn
      ensures s.Account? ==> s.pages == MenuFor(username.value)
    {
      if loggedIn then Account(MenuFor(username.value)) else LoginPage
    }
  }

  /** A password registered under a new name logs in with that name. */
  method RegisterThenLogin(app: App, name: string, password: string) returns (ok: bool)
    requires app.Valid() && name !in app.users
    modifies app
    ensures app.Valid()
    ensures ok && app.loggedIn && app.username == Some(name)
    ensures app.CurrentScreen() == Account(MenuFor(name))
  {
    var registered := app.RegisterUser(name, password);
    ok := app.Login(name, password);
  }

  /** Nothing reserves the name "admin": on a fresh database, whoever
      registers it first and logs in gets the administrator's menu. */
  method FirstAdmin(hash: string -> string, password: string) returns (app: App)
    ensures app.Valid()
    ensures app.CurrentScreen() == Account([Profile, ZoneSetup, PlateDatabase, VideoProcessing])
  {
    app := new App(hash, None);
    var registered := app.RegisterUser(AdminName, password);
    var ok := app.Login(AdminName, password);
  }

  /** Logging out returns to the login page, whoever was logged in. */
  method LogoutShowsLogin(app: App)
    requires app.Valid()
    modifies app
    ensures app.Valid()
    ensures app.CurrentScreen() == LoginPage
  {
    app.Logout();
  }
}
