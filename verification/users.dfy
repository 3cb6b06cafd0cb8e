/** The credential store and the four authentication handlers: register, login,
    Google login and Google signup. Password hashing, password comparison, token
    signing and Google's ID-token verification are oracles passed in by the caller. */
module Users {
  import opened Wrappers
  import opened Text
  import opened Http
  import opened Lookup

  type UserId = string

  /** A stored account; `password` holds the output of the hash oracle. */
  datatype User = User(id: UserId, name: string, email: string, password: string)

  /** The user collection in natural (insertion) order; `findOne` returns the first match. */
  type UserStore = seq<User>

  /** The payload of an issued identity token. */
  datatype Claims = Claims(userId: UserId, name: string, email: string)

  /** An issued token, represented by what it asserts and its `expiresIn` tag;
      the signature itself is not modelled. */
  datatype Token = Token(claims: Claims, expiresIn: string)

  /** The `user` object sent back beside the token. */
  datatype Summary = Summary(id: UserId, name: string, email: string)

  datatype Session = Session(token: Token, user: Summary)

  /** The verified payload of a Google ID token. */
  datatype GoogleProfile = GoogleProfile(email: string, name: string)

  const RegisterTtl := "7d"
  const LoginTtl := "1h"
  const GoogleTtl := "7d"

  /** Stands for the validator's error array, which the 400 reply carries instead of a message. */
  const ValidationErrors := "validation errors"
  const UserExists := "User already exists"
  const InvalidCredentials := "Invalid credentials"
  const GoogleUserNotFound := "User not found. Please sign up first."
  const GoogleUserExists := "User already exists. Please log in."
  const InvalidGoogleToken := "Invalid Google token"

  /** `findOne({ email })`: exact, case-sensitive match; the first one in natural order. */
  function FindByEmail(users: UserStore, email: string): Option<nat> {
    First(users, (u: User) => u.email == email)
  }

  /** `findById`, as used when a save would collide with an existing `_id`. */
  function FindById(users: UserStore, id: UserId): Option<nat> {
    First(users, (u: User) => u.id == id)
  }

  /** The token and user summary issued for a stored account. */
  function SessionFor(u: User, ttl: string): Session {
    Session(Token(Claims(u.id, u.name, u.email), ttl), Summary(u.id, u.name, u.email))
  }

  /** No two accounts share an email address. */
  ghost predicate EmailsUnique(users: UserStore) {
    forall i, j :: 0 <= i < j < |users| ==> users[i].email != users[j].email
  }

  /** `register`: validation first, then the duplicate check, then the new account
      with the hashed password and a 7-day token. A save that collides with an
      existing id throws and is answered 500. */
  function Register(users: UserStore, valid: bool, name: string, email: string, password: string,
                    hash: string -> string, newId: UserId): (r: Handled<Session, UserStore>)
    ensures !valid ==> r == Handled(Reply(400, ValidationErrors, None), users)
    ensures valid && (exists i :: 0 <= i < |users| && users[i].email == email) ==>
              r == Handled(Reply(400, UserExists, None), users)
    ensures valid && (forall i :: 0 <= i < |users| ==> users[i].email != email) &&
            (exists i :: 0 <= i < |users| && users[i].id == newId) ==>
              r == Handled(Reply(500, ServerError, None), users)
    ensures r.reply.status == 201 <==>
              valid && (forall i :: 0 <= i < |users| ==> users[i].email != email && users[i].id != newId)
    ensures r.reply.status != 201 ==> r.state == users && r.reply.body == None
    ensures r.reply.status == 201 ==>
              && |r.state| == |users| + 1
              && r.state[..|users|] == users
              && r.state[|users|] == User(newId, name, email, hash(password))
              && r.reply.body == Some(Session(Token(Claims(newId, name, email), "7d"), Summary(newId, name, email)))
  {
    if !valid then
      Handled(Reply(400, ValidationErrors, None), users)
    else if FindByEmail(users, email).Some? then
      Handled(Reply(400, UserExists, None), users)
    else if FindById(users, newId).Some? then
      Handled(Reply(500, ServerError, None), users)
    else
      var u := User(newId, name, email, hash(password));
      assert (users + [u])[..|users|] == users;
      Handled(Reply(201, "", Some(SessionFor(u, RegisterTtl))), users + [u])
  }

  /** `login`: validation first, then a lookup of the lower-cased email and the password
      comparison; both failures give one identical reply, and the store never changes. */
  function Login(users: UserStore, valid: bool, email: string, password: string,
                 compare: (string, string) -> bool): (r: Handled<Session, UserStore>)
    ensures r.state == users
    ensures !valid ==> r.reply == Reply(400, ValidationErrors, None)
    ensures r.reply.status == 401 ==> r.reply == Reply(401, InvalidCredentials, None)
    ensures valid ==> r.reply.status in {200, 401}
    ensures r.reply.status == 200 <==>
              valid && exists i :: 0 <= i < |users| && users[i].email == Lower(email)
                                   && compare(password, users[i].password)
                                   && forall j :: 0 <= j < i ==> users[j].email != Lower(email)
    ensures r.reply.status == 200 ==>
              exists i :: 0 <= i < |users| && users[i].email == Lower(email)
                          && (forall j :: 0 <= j < i ==> users[j].email != Lower(email))
                          && compare(password, users[i].password)
                          && r.reply.body == Some(Session(Token(Claims(users[i].id, users[i].name, users[i].email), "1h"),
                                                          Summary(users[i].id, users[i].name, users[i].email)))
  {
    if !valid then
      Handled(Reply(400, ValidationErrors, None), users)
    else match FindByEmail(users, Lower(email))
      case None => Handled(Reply(401, InvalidCredentials, None), users)
      case Some(i) =>
        if !compare(password, users[i].password) then
          Handled(Reply(401, InvalidCredentials, None), users)
        else
          Handled(Reply(200, "", Some(SessionFor(users[i], LoginTtl))), users)
  }

  /** `googleLogin`: a verified Google profile is matched by exact email to an existing
      account; nothing is ever added. Every failure inside the handler is answered 401. */
  function GoogleLogin(users: UserStore, idToken: string,
                       verifyGoogle: string -> Option<GoogleProfile>): (r: Handled<Session, UserStore>)
    ensures r.state == users
    ensures verifyGoogle(idToken).None? ==> r.reply == Reply(401, InvalidGoogleToken, None)
    ensures verifyGoogle(idToken).Some? &&
            (forall i :: 0 <= i < |users| ==> users[i].email != verifyGoogle(idToken).value.email) ==>
              r.reply == Reply(401, GoogleUserNotFound, None)
    ensures r.reply.status in {200, 401}
    ensures r.reply.status == 200 <==>
              verifyGoogle(idToken).Some? &&
              exists i :: 0 <= i < |users| && users[i].email == verifyGoogle(idToken).value.email
    ensures r.reply.status == 200 ==>
              exists i :: 0 <= i < |users| && users[i].email == verifyGoogle(idToken).value.email
                          && (forall j :: 0 <= j < i ==> users[j].email != verifyGoogle(idToken).value.email)
                          && r.reply.body == Some(Session(Token(Claims(users[i].id, users[i].name, users[i].email), "7d"),
                                                          Summary(users[i].id, users[i].name, users[i].email)))
  {
    match verifyGoogle(idToken)
    case None => Handled(Reply(401, InvalidGoogleToken, None), users)
    case Some(profile) =>
      match FindByEmail(users, profile.email)
      case None => Handled(Reply(401, GoogleUserNotFound, None), users)
      case Some(i) => Handled(Reply(200, "", Some(SessionFor(users[i], GoogleTtl))), users)
  }

  /** `googleSignup`: an existing email is refused with 400; otherwise one account is
      added whose password is the hash of a random string, with a 7-day token. A failed
      verification, and any error thrown later (a colliding id), is answered 401. */
  function GoogleSignup(users: UserStore, idToken: string, verifyGoogle: string -> Option<GoogleProfile>,
                        randomPassword: string, hash: string -> string, newId: UserId): (r: Handled<Session, UserStore>)
    ensures verifyGoogle(idToken).None? ==> r == Handled(Reply(401, InvalidGoogleToken, None), users)
    ensures verifyGoogle(idToken).Some? &&
            (exists i :: 0 <= i < |users| && users[i].email == verifyGoogle(idToken).value.email) ==>
              r == Handled(Reply(400, GoogleUserExists, None), users)
    ensures verifyGoogle(idToken).Some? &&
            (forall i :: 0 <= i < |users| ==> users[i].email != verifyGoogle(idToken).value.email) &&
            (exists i :: 0 <= i < |users| && users[i].id == newId) ==>
              r == Handled(Reply(401, InvalidGoogleToken, None), users)
    ensures r.reply.status in {201, 400, 401}
    ensures r.reply.status == 201 <==>
              verifyGoogle(idToken).Some? &&
              forall i :: 0 <= i < |users| ==>
                users[i].email != verifyGoogle(idToken).value.email && users[i].id != newId
    ensures r.reply.status == 401 ==> r.reply == Reply(401, InvalidGoogleToken, None)
    ensures r.reply.status != 201 ==> r.state == users && r.reply.body == None
    ensures r.reply.status == 201 ==>
              var p := verifyGoogle(idToken).value;
              && verifyGoogle(idToken).Some?
              && |r.state| == |users| + 1
              && r.state[..|users|] == users
              && r.state[|users|] == User(newId, p.name, p.email, hash(randomPassword))
              && r.reply.body == Some(Session(Token(Claims(newId, p.name, p.email), "7d"), Summary(newId, p.name, p.email)))
  {
    match verifyGoogle(idToken)
    case None => Handled(Reply(401, InvalidGoogleToken, None), users)
    case Some(profile) =>
      if FindByEmail(users, profile.email).Some? then
        Handled(Reply(400, GoogleUserExists, None), users)
      else if FindById(users, newId).Some? then
        Handled(Reply(401, InvalidGoogleToken, None), users)
      else
        var u := User(newId, profile.name, profile.email, hash(randomPassword));
        assert (users + [u])[..|users|] == users;
        Handled(Reply(201, "", Some(SessionFor(u, GoogleTtl))), users + [u])
  }

  /** Register keeps emails unique: it only ever adds an email not yet stored. */
  lemma RegisterKeepsEmailsUnique(users: UserStore, valid: bool, name: string, email: string, password: string,
                                  hash: string -> string, newId: UserId)
    requires EmailsUnique(users)
    ensures EmailsUnique(Register(users, valid, name, email, password, hash, newId).state)
  {
  }

  /** Google signup keeps emails unique in the same way. */
  lemma GoogleSignupKeepsEmailsUnique(users: UserStore, idToken: string, verifyGoogle: string -> Option<GoogleProfile>,
                                      randomPassword: string, hash: string -> string, newId: UserId)
    requires EmailsUnique(users)
    ensures EmailsUnique(GoogleSignup(users, idToken, verifyGoogle, randomPassword, hash, newId).state)
  {
  }

  /** Registering the same email twice fails the second time, whatever the password. */
  lemma RegisterTwiceFails(users: UserStore, name: string, email: string, pw1: string, pw2: string,
                           hash: string -> string, id1: UserId, id2: UserId)
    requires Register(users, true, name, email, pw1, hash, id1).reply.status == 201
    ensures var after := Register(users, true, name, email, pw1, hash, id1).state;
            Register(after, true, name, email, pw2, hash, id2) == Handled(Reply(400, UserExists, None), after)
  {
    var after := Register(users, true, name, email, pw1, hash, id1).state;
    assert after[|users|].email == email;
  }

  /** A fresh account registered with a lower-case email can log in with the same
      credentials, provided the comparison oracle accepts a password against its own hash;
      the login token carries the new account's claims and the 1-hour tag. */
  lemma RegisterThenLogin(users: UserStore, name: string, email: string, password: string,
                          hash: string -> string, compare: (string, string) -> bool, newId: UserId)
    requires Register(users, true, name, email, password, hash, newId).reply.status == 201
    requires Lower(email) == email
    requires compare(password, hash(password))
    ensures var after := Register(users, true, name, email, password, hash, newId).state;
            Login(after, true, email, password, compare).reply
              == Reply(200, "", Some(Session(Token(Claims(newId, name, email), "1h"), Summary(newId, name, email))))
  {
    var u := User(newId, name, email, hash(password));
    var after := Register(users, true, name, email, password, hash, newId).state;
    assert after == users + [u];
    FirstAppend(users, u, (v: User) => v.email == email);
  }

  /** The lower-casing is on the login side only: an account registered with upper-case
      letters in its email cannot log in with that email unless another account holds
      its lower-case form. */
  lemma MixedCaseRegisterCannotLogin(users: UserStore, name: string, email: string, password: string,
                                     hash: string -> string, compare: (string, string) -> bool, newId: UserId)
    requires Register(users, true, name, email, password, hash, newId).reply.status == 201
    requires Lower(email) != email
    requires forall i :: 0 <= i < |users| ==> users[i].email != Lower(email)
    ensures var after := Register(users, true, name, email, password, hash, newId).state;
            Login(after, true, email, password, compare).reply == Reply(401, InvalidCredentials, None)
  {
    var u := User(newId, name, email, hash(password));
    var after := Register(users, true, name, email, password, hash, newId).state;
    assert after == users + [u];
    FirstAppend(users, u, (v: User) => v.email == Lower(email));
  }

  /** Google login after Google signup of the same ID token finds the new account. */
  lemma GoogleSignupThenLogin(users: UserStore, idToken: string, verifyGoogle: string -> Option<GoogleProfile>,
                              randomPassword: string, hash: string -> string, newId: UserId)
    requires GoogleSignup(users, idToken, verifyGoogle, randomPassword, hash, newId).reply.status == 201
    ensures var after := GoogleSignup(users, idToken, verifyGoogle, randomPassword, hash, newId).state;
            var p := verifyGoogle(idToken).value;
            GoogleLogin(after, idToken, verifyGoogle).reply
              == Reply(200, "", Some(Session(Token(Claims(newId, p.name, p.email), "7d"), Summary(newId, p.name, p.email))))
  {
    var p := verifyGoogle(idToken).value;
    var u := User(newId, p.name, p.email, hash(randomPassword));
    var after := GoogleSignup(users, idToken, verifyGoogle, randomPassword, hash, newId).state;
    assert after == users + [u];
    FirstAppend(users, u, (v: User) => v.email == p.email);
  }
}
