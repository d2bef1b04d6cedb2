/** The user administration table: loading the users, deleting one, and the
    role badge. */
module UserList {
  import opened Browser

  /** A user row. Identifiers are compared with `!==`; they are kept here in
      the text form they take in request paths. */
  datatype User = User(id: string, firstName: string, email: string, role: string)

  datatype Screen = Screen(users: seq<User>, loading: bool, error: Option<string>)

  const Initial: Screen := Screen([], true, None)

  const AuthRequired: string := "Требуется авторизация"
  const LoadError: string := "Не удалось загрузить пользователей"
  const DeleteError: string := "Не удалось удалить пользователя"

  /** `fetchUsers`. Without a token: the authorization error, no request.
      Otherwise the response's user list, or the empty list when it has
      none; on failure the server's error text or the default. Loading ends
      on every path. */
  function FetchUsers(s: Screen, token: Option<string>, response: Outcome<Option<seq<User>>>): (r: Step<Screen>)
    ensures !r.state.loading
    ensures !Truthy(token) ==> r == Step(s.(error := Some(AuthRequired), loading := false), [])
    ensures Truthy(token) ==> r.effects == [Send(Authorized(Get, "/api/users", token, []))]
    ensures Truthy(token) && response.Ok? ==>
      r.state.users == (if response.data.Some? then response.data.value else []) && r.state.error == s.error
    ensures Truthy(token) && response.Failed? ==>
      r.state.users == s.users && r.state.error == Some(OrElse(response.failure.serverError, LoadError))
  {
    if !Truthy(token) then Step(s.(error := Some(AuthRequired), loading := false), [])
    else
      var request := Send(Authorized(Get, "/api/users", token, []));
      match response
      case Ok(users) =>
        Step(s.(users := if users.Some? then users.value else [], loading := false), [request])
      case Failed(f) => Step(s.(error := Some(OrElse(f.serverError, LoadError)), loading := false), [request])
  }

  /** Starting without an error, the table ends with no error exactly when
      there is a token and the request succeeds; it then shows the reply's
      users. */
  lemma FetchUsersLoadedIff(s: Screen, token: Option<string>, response: Outcome<Option<seq<User>>>)
    requires s.error.None?
    ensures var r := FetchUsers(s, token, response);
      (Truthy(token) && response.Ok?) <==> r.state.error.None?
    ensures var r := FetchUsers(s, token, response);
      r.state.error.None? && response.data.Some? ==> r.state.users == response.data.value
  {
    var r := FetchUsers(s, token, response);
    if Truthy(token) && response.Failed? {
      assert r.state.error == Some(OrElse(response.failure.serverError, LoadError));
    }
  }

  /** The first load of a freshly opened table: no error exactly when there
      is a token and the request succeeds, and then the table holds exactly
      the reply's users (none when the reply lists none). */
  lemma FirstLoad(token: Option<string>, response: Outcome<Option<seq<User>>>)
    ensures (Truthy(token) && response.Ok?) <==> FetchUsers(Initial, token, response).state.error.None?
    ensures Truthy(token) && response.Ok? ==>
      FetchUsers(Initial, token, response).state ==
      Screen(if response.data.Some? then response.data.value else [], false, None)
  {
    FetchUsersLoadedIff(Initial, token, response);
  }

  /** `handleEdit`: opens the edit page of that user and nothing else. */
  function Edit(s: Screen, userId: string): (r: Step<Screen>)
    ensures r.state == s && NoRequest(r.effects)
    ensures r.effects == [Navigate("/users/" + userId + "/edit")]
  {
    Step(s, [Navigate("/users/" + userId + "/edit")])
  }

  /** `users.filter(user => user.id !== userId)` */
  function RemoveId(users: seq<User>, userId: string): (r: seq<User>)
    ensures forall u :: u in r <==> u in users && u.id != userId
    ensures |r| <= |users|
  {
    if users == [] then []
    else (if users[0].id != userId then [users[0]] else []) + RemoveId(users[1..], userId)
  }

  /** Removal keeps the order: it commutes with concatenation. */
  lemma {:induction false} RemoveIdAppend(a: seq<User>, b: seq<User>, userId: string)
    ensures RemoveId(a + b, userId) == RemoveId(a, userId) + RemoveId(b, userId)
    decreases |a|
  {
    if a == [] {
      assert a + b == b;
    } else {
      assert (a + b)[0] == a[0];
      assert (a + b)[1..] == a[1..] + b;
      RemoveIdAppend(a[1..], b, userId);
    }
  }

  /** A list with no entry of that identifier is left exactly as it was. */
  lemma {:induction false} RemoveAbsentId(users: seq<User>, userId: string)
    requires forall i :: 0 <= i < |users| ==> users[i].id != userId
    ensures RemoveId(users, userId) == users
    decreases |users|
  {
    if users != [] {
      RemoveAbsentId(users[1..], userId);
      assert users == [users[0]] + users[1..];
    }
  }

  /** `handleDelete`. Unconfirmed: nothing happens. Confirmed: a delete
      request; on success every entry with that identifier leaves the list,
      on failure the list stays and an alert shows the server's error text or
      the default. */
  function DeleteUser(s: Screen, userId: string, confirmed: bool, token: Option<string>, response: Outcome<()>): (r: Step<Screen>)
    ensures !confirmed ==> r == Step(s, [])
    ensures confirmed ==> |r.effects| >= 1 && r.effects[0] == Send(Authorized(Delete, "/api/users/" + userId, token, []))
    ensures confirmed && response.Ok? ==>
      r.state.users == RemoveId(s.users, userId) && r.state.loading == s.loading && r.state.error == s.error &&
      |r.effects| == 1
    ensures confirmed && response.Failed? ==>
      r.state == s && r.effects[1..] == [Alert(OrElse(response.failure.serverError, DeleteError))]
  {
    if !confirmed then Step(s, [])
    else
      var request := Send(Authorized(Delete, "/api/users/" + userId, token, []));
      match response
      case Ok(_) => Step(s.(users := RemoveId(s.users, userId)), [request])
      case Failed(f) => Step(s, [request, Alert(OrElse(f.serverError, DeleteError))])
  }

  /** `toUpperCase` on one character, for the ASCII letters. */
  function UpperChar(c: char): char {
    if 'a' <= c <= 'z' then (c as int - 'a' as int + 'A' as int) as char else c
  }

  /** `role.charAt(0).toUpperCase() + role.slice(1)`: the first character
      capitalised and the rest unchanged. */
  function RoleLabel(role: string): (shown: string)
    ensures |shown| == |role|
    ensures role != "" ==> shown[0] == UpperChar(role[0]) && shown[1..] == role[1..]
  {
    if role == "" then "" else [UpperChar(role[0])] + role[1..]
  }

  /** Capitalising twice is capitalising once. */
  lemma RoleLabelIdempotent(role: string)
    ensures RoleLabel(RoleLabel(role)) == RoleLabel(role)
  {
  }

  const AdminBadge: string := "bg-red-100 text-red-800"
  const UserBadge: string := "bg-green-100 text-green-800"

  /** The badge colours: red for "admin", green for every other role. */
  function BadgeColours(role: string): (classes: string)
    ensures classes == AdminBadge || classes == UserBadge
    ensures classes == AdminBadge <==> IsAdmin(Some(role))
  {
    if role == "admin" then AdminBadge else UserBadge
  }

  /** The badge and the label disagree on what they look at: the badge
      compares the stored role exactly, while the label capitalises it. So
      the roles "admin" and "Admin" show the same label, "Admin", but only
      the first gets the administrator's badge. */
  lemma LabelDoesNotDecideBadge(admin: string, capitalised: string)
    requires admin == "admin" && capitalised == "Admin"
    ensures RoleLabel(admin) == RoleLabel(capitalised) == "Admin"
    ensures BadgeColours(admin) == AdminBadge && BadgeColours(capitalised) == UserBadge
  {
    assert RoleLabel(admin) == [UpperChar('a')] + "dmin";
    assert RoleLabel(capitalised) == [UpperChar('A')] + "dmin";
  }
}
