/** What both `DashboardRestController`s compute for the signed-in user: the summary
    (full name, e-mail address, total balance) and the list of their accounts as DTOs. The
    legacy and the newer controller perform the same computation on their own entities. */
module Dashboard {
  import opened Common
  import opened Bank
  import opened Requests
  import opened Responses
  import Ledger

  const NoOwnerName: string := "N/A"

  /** `getFirstName() + " " + getLastName()` (legacy: `getNombre() + " " + getApellido()`). */
  function FullName(u: User): (r: string)
    ensures |r| == |u.firstName| + 1 + |u.lastName|
    ensures r[..|u.firstName|] == u.firstName && r[|u.firstName|] == ' ' && r[|u.firstName| + 1..] == u.lastName
  {
    u.firstName + " " + u.lastName
  }

  /** `stream().map(getBalance).reduce(ZERO, add)`: a left fold from `acc`. */
  function Reduce(accounts: seq<Account>, acc: Cents): Cents {
    if |accounts| == 0 then acc else Reduce(accounts[1..], acc + accounts[0].balance)
  }

  /** The fold adds exactly the balances: it agrees with the table sum. */
  lemma {:induction false} ReduceIsTotal(accounts: seq<Account>, acc: Cents)
    ensures Reduce(accounts, acc) == acc + Total(accounts)
  {
    if |accounts| > 0 {
      ReduceIsTotal(accounts[1..], acc + accounts[0].balance);
    }
  }

  /** `getAuthenticatedUserDetails`: not found (None) for an address with no user;
      otherwise the full name, the address and the sum of the balances of the user's
      accounts, zero when they have none. */
  function UserDetails(b: Bank, email: string): (r: Option<UserSummary>)
    ensures r.None? <==> forall i :: 0 <= i < |b.users| ==> b.users[i].email != email
    ensures r.Some? ==> exists i :: 0 <= i < |b.users| && b.users[i].email == email && r.value.id == b.users[i].id
    ensures r.Some? ==> r.value.email == email
    ensures r.Some? ==> r.value.totalBalance == Total(OwnedBy(b.accounts, r.value.id))
    ensures r.Some? && |OwnedBy(b.accounts, r.value.id)| == 0 ==> r.value.totalBalance == 0
  {
    match FindUserByEmail(b.users, email)
    case None => None
    case Some(u) =>
      var accounts := OwnedBy(b.accounts, u.id);
      var total := if |accounts| > 0 then Reduce(accounts, 0) else 0;
      ReduceIsTotal(accounts, 0);
      Some(UserSummary(u.id, FullName(u), u.email, total))
  }

  /** `account.getUser()`: the owner row, if the owner key resolves. */
  function OwnerOf(b: Bank, a: Account): Option<User> {
    FindUser(b.users, a.owner)
  }

  /** The newer account DTO: the account's columns, and its owner's id and full name,
      or no id and "N/A" when the account has no owner. */
  function ToAccountDto(b: Bank, a: Account): (r: AccountDto)
    ensures (r.id, r.accountNumber, r.accountType, r.balance, r.status, r.creationDate)
         == (a.id, a.number, a.accountType, a.balance, a.status, a.creationDate)
    ensures r.userId.None? <==> OwnerOf(b, a).None?
    ensures OwnerOf(b, a).None? ==> r.userName == NoOwnerName
    ensures OwnerOf(b, a).Some? ==> r.userId == Some(a.owner) && r.userName == FullName(OwnerOf(b, a).value)
  {
    match OwnerOf(b, a)
    case Some(u) => AccountDto(a.id, a.number, a.accountType, a.balance, a.status, a.creationDate, Some(u.id), FullName(u))
    case None => AccountDto(a.id, a.number, a.accountType, a.balance, a.status, a.creationDate, None, NoOwnerName)
  }

  /** The legacy `CuentaDTO`, built by the same rule. */
  function ToCuentaDto(b: Bank, a: Account): (r: CuentaDto)
    ensures (r.id, r.numeroCuenta, r.tipoCuenta, r.saldo, r.estado, r.fechaCreacion)
         == (a.id, a.number, a.accountType, a.balance, a.status, a.creationDate)
    ensures r.usuarioId.None? <==> OwnerOf(b, a).None?
    ensures OwnerOf(b, a).None? ==> r.usuarioNombreCompleto == NoOwnerName
    ensures OwnerOf(b, a).Some? ==> r.usuarioId == Some(a.owner) && r.usuarioNombreCompleto == FullName(OwnerOf(b, a).value)
  {
    match OwnerOf(b, a)
    case Some(u) => CuentaDto(a.id, a.number, a.accountType, a.balance, a.status, a.creationDate, Some(u.id), FullName(u))
    case None => CuentaDto(a.id, a.number, a.accountType, a.balance, a.status, a.creationDate, None, NoOwnerName)
  }

  /** `getUserAccounts` (newer): not found for an unknown address, otherwise one DTO per
      account of the user, in the same order. */
  function UserAccounts(b: Bank, email: string): (r: Option<seq<AccountDto>>)
    ensures r.None? <==> forall i :: 0 <= i < |b.users| ==> b.users[i].email != email
    ensures r.Some? ==> var accounts := OwnedBy(b.accounts, FindUserByEmail(b.users, email).value.id);
      |r.value| == |accounts| && forall k :: 0 <= k < |accounts| ==> r.value[k] == ToAccountDto(b, accounts[k])
  {
    match FindUserByEmail(b.users, email)
    case None => None
    case Some(u) =>
      var accounts := OwnedBy(b.accounts, u.id);
      Some(seq(|accounts|, k requires 0 <= k < |accounts| => ToAccountDto(b, accounts[k])))
  }

  /** `getUserAccounts` (legacy), with `CuentaDTO`s. */
  function UserCuentas(b: Bank, email: string): (r: Option<seq<CuentaDto>>)
    ensures r.None? <==> forall i :: 0 <= i < |b.users| ==> b.users[i].email != email
    ensures r.Some? ==> var accounts := OwnedBy(b.accounts, FindUserByEmail(b.users, email).value.id);
      |r.value| == |accounts| && forall k :: 0 <= k < |accounts| ==> r.value[k] == ToCuentaDto(b, accounts[k])
  {
    match FindUserByEmail(b.users, email)
    case None => None
    case Some(u) =>
      var accounts := OwnedBy(b.accounts, u.id);
      Some(seq(|accounts|, k requires 0 <= k < |accounts| => ToCuentaDto(b, accounts[k])))
  }

  /** In a valid store each listed account names the signed-in user of the summary as
      its owner, by id and by full name. */
  lemma {:induction false} AccountsMatchSummary(b: Bank, email: string)
    requires Valid(b)
    requires UserDetails(b, email).Some?
    ensures var s := UserDetails(b, email).value;
      var dtos := UserAccounts(b, email).value;
      forall k :: 0 <= k < |dtos| ==> dtos[k].userId == Some(s.id) && dtos[k].userName == s.fullName
  {
    var u := FindUserByEmail(b.users, email).value;
    var accounts := OwnedBy(b.accounts, u.id);
    var dtos := UserAccounts(b, email).value;
    forall k | 0 <= k < |dtos| ensures dtos[k].userId == Some(u.id) && dtos[k].userName == FullName(u) {
      assert accounts[k] in accounts;
      assert accounts[k].owner == u.id;
      var i :| 0 <= i < |b.users| && b.users[i] == u;
      assert UserIds(b.users)[i] == u.id;
      IndexOfDistinct(UserIds(b.users), i);
    }
  }

  /** A successful internal transfer leaves every user's dashboard total as it was. */
  lemma {:induction false} TransferKeepsDashboardTotal(b: Bank, req: TransferRequest, userId: UserId, today: Date, email: string)
    requires Ledger.Transfer(b, req, userId, today).Ok?
    ensures UserDetails(Ledger.Transfer(b, req, userId, today).value.bank, email) == UserDetails(b, email)
  {
    var i := FindAccountIndex(b.accounts, req.originAccountNumber.value).value;
    var j := FindAccountIndex(b.accounts, req.destinationAccountNumber.value).value;
    var p := Ledger.Transfer(b, req, userId, today).value;
    assert p == Ledger.Move(b, i, j, req, today);
    assert p.bank.users == b.users;
  }
}
