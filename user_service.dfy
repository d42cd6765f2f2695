/** `UserServiceImpl`: registration and lookup by e-mail. */
module UserService {
  import opened Wrappers
  import opened Entities
  import opened Errors
  import opened Persistence

  /** `UserRegistrationRequestDto`. */
  datatype RegistrationRequest = RegistrationRequest(
    email: string,
    password: string,
    repeatPassword: string,
    firstName: string,
    lastName: string,
    shippingAddress: Option<string>)

  /** The user `register` saves: the request's fields, the password as the
      encoder encodes it, and the single role USER. */
  function NewUser(req: RegistrationRequest, encode: string -> string): (u: User)
    ensures u.email == req.email && u.password == encode(req.password) && u.roles == {USER}
  {
    User(req.email, encode(req.password), req.firstName, req.lastName, req.shippingAddress, {USER})
  }

  /** `findByEmail`: the user registered with that e-mail. */
  function FindByEmail(s: Store, email: string): (r: Result<User, Error>)
    requires s.Valid()
    ensures r.Ok? <==> exists i :: i in s.users && s.users[i].email == email
    ensures r.Ok? ==> r.value.email == email && r.value in s.users.Values
    ensures r.Err? ==> r.error == UserNotFound(email)
  {
    match FindUserByEmail(s.users, email)
    case None => Err(UserNotFound(email))
    case Some(i) => Ok(s.users[i])
  }

  /** `register`: an e-mail already registered is refused and nothing is
      saved; otherwise exactly one user is added, under the next id.
      `encode` is the `PasswordEncoder`, which this model does not interpret. */
  method Register(db: Database, req: RegistrationRequest, encode: string -> string) returns (r: Result<int, Error>)
    requires db.Valid()
    modifies db
    ensures db.Valid()
    ensures FindUserByEmail(old(db.store).users, req.email).Some? ==>
      r == Err(RegistrationRejected(req.email)) && db.store == old(db.store)
    ensures FindUserByEmail(old(db.store).users, req.email).None? ==>
      var s := old(db.store);
      && r == Ok(s.nextUserId)
      && s.nextUserId !in s.users
      && db.store == s.(users := s.users[s.nextUserId := NewUser(req, encode)], nextUserId := s.nextUserId + 1)
      && FindByEmail(db.store, req.email) == Ok(NewUser(req, encode))
  {
    var s := db.store;
    if FindUserByEmail(s.users, req.email).Some? {
      return Err(RegistrationRejected(req.email));
    }
    var id := s.nextUserId;
    RegisterValid(s, NewUser(req, encode));
    db.store := s.(users := s.users[id := NewUser(req, encode)], nextUserId := id + 1);
    r := Ok(id);
  }

  /** Adding, under the next id, a user whose e-mail is not yet registered keeps
      the store's constraints, and the new user is then the one `findByEmail`
      finds for that e-mail. */
  lemma RegisterValid(s: Store, user: User)
    requires s.Valid() && FindUserByEmail(s.users, user.email).None?
    ensures var s' := s.(users := s.users[s.nextUserId := user], nextUserId := s.nextUserId + 1);
      s'.Valid() && FindByEmail(s', user.email) == Ok(user)
  {
    var s' := s.(users := s.users[s.nextUserId := user], nextUserId := s.nextUserId + 1);
    assert s'.users[s.nextUserId].email == user.email;
    assert FindUserByEmail(s'.users, user.email) == Some(s.nextUserId);
  }
}
