/** The browser-side user store: the signed-in user, kept in memory and mirrored to local storage. */
module UserStore {
  import opened Wrappers
  import Json

  datatype User = User(user_id: string, name: string, email: string)

  datatype UserState = UserState(currentUser: Option<User>, isLoggedIn: bool)

  const InitialState := UserState(None, false)

  /** The local-storage key the user is saved under. */
  const StorageKey := "currentUser"

  /** `JSON.stringify(user)`: the compact layout, fields in declaration order. */
  function EncodeUser(u: User): string {
    "{\"user_id\":" + Json.Quote(u.user_id) + ",\"name\":" + Json.Quote(u.name) + ",\"email\":" + Json.Quote(u.email) + "}"
  }

  /** One `"key":` literal followed by a JSON string: the string and the text after it. */
  function Field(lit: string, s: string): Option<(string, string)> {
    match Json.Strip(lit, s)
    case None => None
    case Some(t) => Json.ParseString(t)
  }

  lemma FieldOfQuoted(lit: string, x: string, rest: string)
    ensures Field(lit, lit + Json.Quote(x) + rest) == Some((x, rest))
  {
    assert lit + Json.Quote(x) + rest == lit + (Json.Quote(x) + rest);
    Json.StripPrefix(lit, Json.Quote(x) + rest);
    Json.ParseQuoted(x, rest);
  }

  /** Reads back the layout `EncodeUser` writes; None stands for text `JSON.parse` rejects. */
  function DecodeUser(s: string): Option<User> {
    match Field("{\"user_id\":", s)
    case None => None
    case Some((userId, r1)) =>
      match Field(",\"name\":", r1)
      case None => None
      case Some((name, r2)) =>
        match Field(",\"email\":", r2)
        case None => None
        case Some((email, r3)) => if r3 == "}" then Some(User(userId, name, email)) else None
  }

  /** The stored text of a user reads back as that same user. */
  lemma UserRoundTrip(u: User)
    ensures DecodeUser(EncodeUser(u)) == Some(u)
  {
    var qe := ",\"email\":" + Json.Quote(u.email) + "}";
    var qn := ",\"name\":" + Json.Quote(u.name) + qe;
    assert EncodeUser(u) == "{\"user_id\":" + Json.Quote(u.user_id) + qn;
    FieldOfQuoted("{\"user_id\":", u.user_id, qn);
    FieldOfQuoted(",\"name\":", u.name, qe);
    FieldOfQuoted(",\"email\":", u.email, "}");
  }

  /** What `initialize` makes of the store: an absent or empty entry leaves the state as it is,
      a readable one signs its user in, and unreadable text makes `JSON.parse` throw (None). */
  function Restore(storage: map<string, string>, state: UserState): (r: Option<UserState>)
    ensures (StorageKey !in storage || storage[StorageKey] == "") ==> r == Some(state)
    ensures r.Some? && r.value != state ==>
              StorageKey in storage && r.value.isLoggedIn && r.value.currentUser.Some? &&
              DecodeUser(storage[StorageKey]) == r.value.currentUser
    ensures StorageKey in storage && storage[StorageKey] != "" ==>
              r == (match DecodeUser(storage[StorageKey])
                    case None => None
                    case Some(u) => Some(UserState(Some(u), true)))
  {
    if StorageKey !in storage || storage[StorageKey] == "" then Some(state)
    else
      match DecodeUser(storage[StorageKey])
      case None => None
      case Some(user) => Some(UserState(Some(user), true))
  }

  /** A reload after `login(u)` signs `u` back in, whatever was stored before. */
  lemma LoginSurvivesReload(storage: map<string, string>, u: User)
    ensures Restore(storage[StorageKey := EncodeUser(u)], InitialState) == Some(UserState(Some(u), true))
  {
    UserRoundTrip(u);
    assert EncodeUser(u)[0] == '{';
  }

  /** A reload after `logout` leaves the user signed out. */
  lemma LogoutSurvivesReload(storage: map<string, string>)
    ensures Restore(storage - {StorageKey}, InitialState) == Some(InitialState)
  {
  }

  /** The store object: its in-memory state and the local storage it mirrors to. */
  class Store {
    var state: UserState
    var storage: map<string, string>

    constructor (storage: map<string, string>)
      ensures state == InitialState && this.storage == storage
    {
      state := InitialState;
      this.storage := storage;
    }

    /** `login`: saves the user under its key, then marks it signed in. */
    method Login(user: User)
      modifies this
      ensures storage == old(storage)[StorageKey := EncodeUser(user)]
      ensures state == UserState(Some(user), true)
    {
      storage := storage[StorageKey := EncodeUser(user)];
      state := state.(currentUser := Some(user), isLoggedIn := true);
    }

    /** `logout`: removes the saved user and resets the state. */
    method Logout()
      modifies this
      ensures storage == old(storage) - {StorageKey}
      ensures state == InitialState
    {
      storage := storage - {StorageKey};
      state := InitialState;
    }

    /** `initialize`: `threw` is set when the saved text cannot be parsed, and the state is then kept. */
    method Initialize() returns (threw: bool)
      modifies this`state
      ensures threw <==> Restore(storage, old(state)).None?
      ensures state == if threw then old(state) else Restore(storage, old(state)).value
    {
      threw := false;
      if StorageKey in storage && storage[StorageKey] != "" {
        var user := DecodeUser(storage[StorageKey]);
        if user.None? {
          threw := true;
          return;
        }
        state := state.(currentUser := user, isLoggedIn := true);
      }
    }
  }
}
