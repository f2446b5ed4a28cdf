/** Registration and sign-in lookup of `UserServiceImpl`: `save` refuses a taken e-mail
    address, then a taken DPI, generates a password and stores the user with the
    default role and no accounts, returning the address with the plain password (as
    written the store fails on the unsaved default role; `SaveCorrected` is the
    intended behaviour);
    `findByEmail` / `loadUserByUsername` look a user up by address. The password
    encoder is a parameter. */
module Registration {
  import opened Common
  import opened Bank
  import opened Requests
  import opened Responses
  import opened Principal
  import Password

  /** Spring Data `findByDpi` on the user table. */
  function FindUserByDpi(users: seq<User>, dpi: string): (r: Option<User>)
    ensures r.Some? ==> r.value in users && r.value.dpi == dpi
    ensures r.None? <==> forall i :: 0 <= i < |users| ==> users[i].dpi != dpi
  {
    match IndexOf(Dpis(users), dpi)
    case None => None
    case Some(i) => Some(users[i])
  }

  /** The identity column's next value: larger than every id in the table. */
  function FreshUserId(users: seq<User>): (r: UserId)
    ensures forall i :: 0 <= i < |users| ==> users[i].id < r
  {
    if |users| == 0 then 1
    else
      var rest := FreshUserId(users[1..]);
      assert forall i :: 1 <= i < |users| ==> users[i] == users[1..][i - 1];
      if users[0].id + 1 > rest then users[0].id + 1 else rest
  }

  /** A lookup with a null argument matches no row: the columns are non-nullable. */
  predicate EmailTaken(b: Bank, email: Option<string>) {
    email.Some? && FindUserByEmail(b.users, email.value).Some?
  }

  predicate DpiTaken(b: Bank, dpi: Option<string>) {
    dpi.Some? && FindUserByDpi(b.users, dpi.value).Some?
  }

  /** Every non-nullable column of `users` gets a value from the request. */
  predicate Complete(req: RegistrationRequest) {
    && req.firstName.Some? && req.lastName.Some? && req.email.Some? && req.dpi.Some?
    && req.nit.Some? && req.phoneNumber.Some? && req.address.Some? && req.birthDate.Some?
  }

  /** The row the builder produces. */
  function NewUser(b: Bank, req: RegistrationRequest, password: string, encode: string -> string): User
    requires Complete(req)
  {
    User(FreshUserId(b.users), req.firstName.value, req.lastName.value, req.email.value,
      encode(password), req.dpi.value, req.nit.value, req.phoneNumber.value, req.address.value,
      req.birthDate.value, Some([DefaultRole]))
  }

  datatype Registered = Registered(bank: Bank, user: User, response: RegistrationResponse)

  /** `save` as written. The e-mail check comes first, then the DPI check; a request
      missing a value for a non-nullable column passes both and is refused when the
      row is inserted. Every other request fails when the transaction is flushed: the
      default role is a new, unsaved `Role` row, and `User.roles` is a many-to-many
      association without cascading, so the join row refers to a transient entity
      (Hibernate's TransientObjectException, reported by Spring as an
      InvalidDataAccessApiUsageException) and nothing is stored. */
  function Save(b: Bank, req: RegistrationRequest, draws: Password.Draws, encode: string -> string)
    : (r: Result<Registered>)
    requires Password.InBounds(draws)
    ensures r.Err?
    ensures EmailTaken(b, req.email) ==> r == Err(Error(IllegalArgumentException, DuplicateEmail))
    ensures !EmailTaken(b, req.email) && DpiTaken(b, req.dpi) ==> r == Err(Error(IllegalArgumentException, DuplicateDpi))
    ensures !EmailTaken(b, req.email) && !DpiTaken(b, req.dpi) && !Complete(req) ==>
      r == Err(Error(DataIntegrityViolation, NullColumn))
    ensures !EmailTaken(b, req.email) && !DpiTaken(b, req.dpi) && Complete(req) ==>
      r == Err(Error(InvalidDataAccessApiUsage, TransientRole))
  {
    if EmailTaken(b, req.email) then Err(Error(IllegalArgumentException, DuplicateEmail))
    else if DpiTaken(b, req.dpi) then Err(Error(IllegalArgumentException, DuplicateDpi))
    else if !Complete(req) then Err(Error(DataIntegrityViolation, NullColumn))
    else Err(Error(InvalidDataAccessApiUsage, TransientRole))
  }

  /** `save` as intended: the same checks, with the default role being the stored
      ROLE_USER row (looked up rather than built anew), so the user is inserted with
      that role and no accounts. Nothing is stored unless the result is Ok. */
  function SaveCorrected(b: Bank, req: RegistrationRequest, draws: Password.Draws, encode: string -> string)
    : (r: Result<Registered>)
    requires Password.InBounds(draws)
    ensures EmailTaken(b, req.email) ==> r == Err(Error(IllegalArgumentException, DuplicateEmail))
    ensures !EmailTaken(b, req.email) && DpiTaken(b, req.dpi) ==> r == Err(Error(IllegalArgumentException, DuplicateDpi))
    ensures !EmailTaken(b, req.email) && !DpiTaken(b, req.dpi) && !Complete(req) ==>
      r == Err(Error(DataIntegrityViolation, NullColumn))
    ensures r.Ok? <==> !EmailTaken(b, req.email) && !DpiTaken(b, req.dpi) && Complete(req)
    ensures r.Ok? ==> r.value.bank == b.(users := b.users + [r.value.user])
    ensures r.Ok? ==> r.value.user.password == encode(r.value.response.generatedPassword)
    ensures r.Ok? ==> r.value.user.roles == Some([DefaultRole])
    ensures r.Ok? ==> r.value.response.email == req.email.value == r.value.user.email
  {
    if EmailTaken(b, req.email) then Err(Error(IllegalArgumentException, DuplicateEmail))
    else if DpiTaken(b, req.dpi) then Err(Error(IllegalArgumentException, DuplicateDpi))
    else if !Complete(req) then Err(Error(DataIntegrityViolation, NullColumn))
    else
      var password := Password.Shuffled(Password.Picked(draws), draws.swaps, Password.Length);
      var u := NewUser(b, req, password, encode);
      Ok(Registered(b.(users := b.users + [u]), u, RegistrationResponse(req.email.value, password)))
  }

  /** As written, no registration ever succeeds: exactly the requests the intended
      `save` would store are the ones refused for the transient role. */
  lemma RegistrationAlwaysFails(b: Bank, req: RegistrationRequest, draws: Password.Draws, encode: string -> string)
    requires Password.InBounds(draws)
    ensures Save(b, req, draws, encode).Err?
    ensures SaveCorrected(b, req, draws, encode).Ok? <==>
      Save(b, req, draws, encode) == Err(Error(InvalidDataAccessApiUsage, TransientRole))
    ensures SaveCorrected(b, req, draws, encode).Err? ==>
      Save(b, req, draws, encode) == SaveCorrected(b, req, draws, encode)
  {
  }

  /** `findByEmail` and `loadUserByUsername`: the user with that address, or a
      UsernameNotFoundException when there is none. */
  function LoadUserByUsername(b: Bank, email: string): (r: Result<User>)
    ensures r.Err? <==> forall i :: 0 <= i < |b.users| ==> b.users[i].email != email
    ensures r.Err? ==> r.error == Error(UsernameNotFoundException, UserNotFound)
    ensures r.Ok? ==> r.value in b.users && r.value.email == email
  {
    match FindUserByEmail(b.users, email)
    case None => Err(Error(UsernameNotFoundException, UserNotFound))
    case Some(u) => Ok(u)
  }

  /** In a store without repeated addresses, every user is found by their username. */
  lemma {:induction false} UsernameFindsUser(b: Bank, i: nat)
    requires Distinct(Emails(b.users))
    requires i < |b.users|
    ensures LoadUserByUsername(b, Username(b.users[i])) == Ok(b.users[i])
  {
    IndexOfDistinct(Emails(b.users), i);
  }

  /** Appending a row with an unused id, address and DPI keeps the table invariants. */
  lemma AddingUserKeepsValid(b: Bank, u: User)
    requires Valid(b)
    requires u.id !in UserIds(b.users) && u.email !in Emails(b.users) && u.dpi !in Dpis(b.users)
    ensures Valid(b.(users := b.users + [u]))
  {
    var after := b.(users := b.users + [u]);
    assert UserIds(after.users) == UserIds(b.users) + [u.id];
    assert Emails(after.users) == Emails(b.users) + [u.email];
    assert Dpis(after.users) == Dpis(b.users) + [u.dpi];
    forall i | 0 <= i < |after.accounts| ensures after.accounts[i].owner in UserIds(after.users) {
      assert after.accounts[i].owner in UserIds(b.users);
    }
  }

  /** In a valid store nobody owns an account under an id no user has. */
  lemma NoAccountsUnderUnusedId(b: Bank, id: UserId)
    requires Valid(b)
    requires id !in UserIds(b.users)
    ensures OwnedBy(b.accounts, id) == []
  {
    NoneOwned(b.accounts, id);
  }

  lemma {:induction false} NoneOwned(accounts: seq<Account>, id: UserId)
    requires forall i :: 0 <= i < |accounts| ==> accounts[i].owner != id
    ensures OwnedBy(accounts, id) == []
  {
    if |accounts| > 0 {
      NoneOwned(accounts[1..], id);
    }
  }

  /** The intended registration keeps the table invariants: the new row has a fresh
      id, and its address and DPI were checked to be unused. */
  lemma RegistrationKeepsValid(b: Bank, req: RegistrationRequest, draws: Password.Draws, encode: string -> string)
    requires Password.InBounds(draws)
    requires Valid(b)
    requires SaveCorrected(b, req, draws, encode).Ok?
    ensures Valid(SaveCorrected(b, req, draws, encode).value.bank)
  {
    var u := SaveCorrected(b, req, draws, encode).value.user;
    assert u.id !in UserIds(b.users);
    assert u.email !in Emails(b.users);
    assert u.dpi !in Dpis(b.users);
    AddingUserKeepsValid(b, u);
  }

  /** The row the intended registration stores has a fresh id, an unused address and
      DPI, and the default role. */
  lemma SaveAccepted(b: Bank, req: RegistrationRequest, draws: Password.Draws, encode: string -> string)
    requires Password.InBounds(draws)
    requires SaveCorrected(b, req, draws, encode).Ok?
    ensures var s := SaveCorrected(b, req, draws, encode).value;
      && s.bank == b.(users := b.users + [s.user])
      && s.user.id !in UserIds(b.users) && s.user.email !in Emails(b.users) && s.user.dpi !in Dpis(b.users)
      && s.user.roles == Some([DefaultRole])
      && s.user.email == req.email.value
  {
    var s := SaveCorrected(b, req, draws, encode).value;
    assert s.user.id == FreshUserId(b.users);
  }

  /** A row appended with an unused id, address and DPI and the default role can sign
      in with its address, is sent to the user dashboard, owns no account, and is never
      locked out. */
  lemma {:induction false} NewRowSignsIn(b: Bank, u: User)
    requires Valid(b)
    requires u.id !in UserIds(b.users) && u.email !in Emails(b.users) && u.dpi !in Dpis(b.users)
    requires u.roles == Some([DefaultRole])
    ensures var after := b.(users := b.users + [u]);
      && LoadUserByUsername(after, u.email) == Ok(u)
      && Authorities(u) == [DefaultRole]
      && Redirect(Authorities(u)) == UserPage
      && OwnedBy(after.accounts, u.id) == []
      && AccountNonExpired(u) && AccountNonLocked(u) && CredentialsNonExpired(u) && Enabled(u)
  {
    var after := b.(users := b.users + [u]);
    AddingUserKeepsValid(b, u);
    assert u == after.users[|b.users|];
    UsernameFindsUser(after, |b.users|);
    NoAccountsUnderUnusedId(b, u.id);
  }

  /** What a user registered by the intended `save` gets: they can sign in with their address and
      receive exactly the default authority, which sends them to the user dashboard;
      they own no account; and their account is never locked. */
  lemma {:induction false} RegisteredUser(b: Bank, req: RegistrationRequest, draws: Password.Draws, encode: string -> string)
    requires Password.InBounds(draws)
    requires Valid(b)
    requires SaveCorrected(b, req, draws, encode).Ok?
    ensures var s := SaveCorrected(b, req, draws, encode).value;
      && LoadUserByUsername(s.bank, req.email.value) == Ok(s.user)
      && Authorities(s.user) == [DefaultRole]
      && Redirect(Authorities(s.user)) == UserPage
      && OwnedBy(s.bank.accounts, s.user.id) == []
      && AccountNonExpired(s.user) && AccountNonLocked(s.user) && CredentialsNonExpired(s.user) && Enabled(s.user)
  {
    SaveAccepted(b, req, draws, encode);
    NewRowSignsIn(b, SaveCorrected(b, req, draws, encode).value.user);
  }

  /** The password a user registered by the intended `save` is shown is the one
      stored, encoded, and has eight characters with one of every class. */
  lemma RegisteredPassword(b: Bank, req: RegistrationRequest, draws: Password.Draws, encode: string -> string)
    requires Password.InBounds(draws)
    requires SaveCorrected(b, req, draws, encode).Ok?
    ensures var s := SaveCorrected(b, req, draws, encode).value;
      && s.user.password == encode(s.response.generatedPassword)
      && |s.response.generatedPassword| == Password.Length
      && Password.HasOneOf(s.response.generatedPassword, Password.Lower)
      && Password.HasOneOf(s.response.generatedPassword, Password.Upper)
      && Password.HasOneOf(s.response.generatedPassword, Password.Digits)
      && Password.HasOneOf(s.response.generatedPassword, Password.Special)
  {
    Password.ShuffledClasses(draws);
  }
}
