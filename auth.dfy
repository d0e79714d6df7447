/// The login route: a fixed table of three accounts, checked by exact
/// username and password equality; a match yields a signed session token
/// with the account's name and role and a profile without the password.
module AuthRoutes {
  import opened Js
  import opened AuthMiddleware

  datatype Account = Account(username: string, password: string, role: string, firstName: string)

  /** The hard-coded accounts (passwords in plain text). */
  const Users: seq<Account> := [
    Account("admin", "1234", "admin", "Admin"),
    Account("tech", "1234", "tech", "ช่าง"),
    Account("resident", "1234", "resident", "ผู้พัก")
  ]

  /** The token lifetime, "24h", in seconds. */
  const TokenLifetime: nat := 24 * 60 * 60

  const MissingFields: string := "กรุณากรอก username และ password"
  const WrongCredentials: string := "username หรือ password ไม่ถูกต้อง"

  /** The fields of a login request body; either may be absent. */
  datatype LoginBody = LoginBody(username: Option<string>, password: Option<string>)

  /** The user projection sent back on success; it has no password field. */
  datatype Profile = Profile(id: string, username: string, role: string, firstName: string)

  /** 400, 401, or 200 with the token and the profile. */
  datatype LoginReply =
    | BadRequest(message: string)
    | Unauthorized(message: string)
    | LoggedIn(token: string, user: Profile)

  predicate Matches(a: Account, username: string, password: string)
  {
    a.username == username && a.password == password
  }

  /** `Array.prototype.find`: the first account matching both fields. */
  function Find(accounts: seq<Account>, username: string, password: string): (found: Option<Account>)
    ensures found.None? <==> forall i :: 0 <= i < |accounts| ==> !Matches(accounts[i], username, password)
    ensures found.Some? ==> exists i :: 0 <= i < |accounts| && accounts[i] == found.value
                                        && Matches(found.value, username, password)
                                        && forall j :: 0 <= j < i ==> !Matches(accounts[j], username, password)
  {
    if accounts == [] then None
    else if Matches(accounts[0], username, password) then Some(accounts[0])
    else
      var found := Find(accounts[1..], username, password);
      assert forall i :: 1 <= i < |accounts| ==> accounts[i] == accounts[1..][i - 1];
      found
  }

  /** No two accounts share a username. */
  lemma UsernamesDistinct()
    ensures forall i, j :: 0 <= i < j < |Users| ==> Users[i].username != Users[j].username
  {
  }

  /** Hence at most one account can match a login. */
  lemma {:induction false} AtMostOneMatch(username: string, password: string, i: nat, j: nat)
    requires i < |Users| && j < |Users|
    requires Matches(Users[i], username, password) && Matches(Users[j], username, password)
    ensures i == j
  {
    UsernamesDistinct();
  }

  /** The login handler. `sign` stands for the token library's signing of
      the claims with the server secret and the given lifetime. */
  function Login(body: LoginBody, sign: (Claims, nat) -> string): (reply: LoginReply)
    ensures reply.BadRequest? <==> !Truthy(body.username) || !Truthy(body.password)
    ensures reply.BadRequest? ==> reply.message == MissingFields
    ensures reply.Unauthorized? <==>
              && Truthy(body.username) && Truthy(body.password)
              && forall i :: 0 <= i < |Users| ==> !Matches(Users[i], body.username.value, body.password.value)
    ensures reply.Unauthorized? ==> reply.message == WrongCredentials
    ensures reply.LoggedIn? ==>
              exists a :: a in Users && Matches(a, body.username.value, body.password.value)
                          && reply.token == sign(Claims(a.username, a.role), TokenLifetime)
                          && reply.user == Profile(a.username, a.username, a.role, a.firstName)
  {
    if !Truthy(body.username) || !Truthy(body.password) then BadRequest(MissingFields)
    else match Find(Users, body.username.value, body.password.value)
      case None => Unauthorized(WrongCredentials)
      case Some(a) =>
        LoggedIn(sign(Claims(a.username, a.role), TokenLifetime),
                 Profile(a.username, a.username, a.role, a.firstName))
  }

  /** A successful login is fully determined by the account it names: the
      profile and the claims are those of the one account with that
      username, whichever order the table lists them in. */
  lemma LoginIsDetermined(body: LoginBody, sign: (Claims, nat) -> string, i: nat)
    requires i < |Users| && body.username.Some? && body.password.Some?
    requires Matches(Users[i], body.username.value, body.password.value)
    ensures Login(body, sign) ==
              LoggedIn(sign(Claims(Users[i].username, Users[i].role), TokenLifetime),
                       Profile(Users[i].username, Users[i].username, Users[i].role, Users[i].firstName))
  {
    var reply := Login(body, sign);
    assert Truthy(body.username) && Truthy(body.password);
    var a :| a in Users && Matches(a, body.username.value, body.password.value)
             && reply.token == sign(Claims(a.username, a.role), TokenLifetime)
             && reply.user == Profile(a.username, a.username, a.role, a.firstName);
    var k :| 0 <= k < |Users| && Users[k] == a;
    AtMostOneMatch(body.username.value, body.password.value, i, k);
  }
}
