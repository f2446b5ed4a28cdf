/** `AdminMovementServiceImpl.getAllBankMovements`: every movement of the bank, in log
    order, as an `AdminMovementDTO` naming its account and the account holder. */
module Admin {
  import opened Common
  import opened Bank
  import opened Responses
  import opened Dashboard

  const NoAccount: string := "N/A"
  const UnknownUser: string := "Desconocido"

  /** One movement as the administrator sees it: its own columns with the kind's enum
      name, the number of its account ("N/A" when the reference is null) and the
      holder's full name ("Desconocido" when there is no account or no holder). */
  function ToAdminDto(b: Bank, m: Movement): (r: AdminMovementDto)
    ensures (r.id, r.date, r.description, r.kind, r.amount) == (m.id, m.date, m.description, KindName(m.kind), m.amount)
    ensures FindAccount(b, m.account).None? ==> r.accountNumber == NoAccount && r.userName == UnknownUser
    ensures FindAccount(b, m.account).Some? ==> r.accountNumber == m.account
    ensures FindAccount(b, m.account).Some? && OwnerOf(b, FindAccount(b, m.account).value).None? ==> r.userName == UnknownUser
    ensures FindAccount(b, m.account).Some? && OwnerOf(b, FindAccount(b, m.account).value).Some? ==>
      r.userName == FullName(OwnerOf(b, FindAccount(b, m.account).value).value)
  {
    var (accountNumber, userName) :=
      match FindAccount(b, m.account)
      case None => (NoAccount, UnknownUser)
      case Some(a) =>
        match OwnerOf(b, a)
        case None => (a.number, UnknownUser)
        case Some(u) => (a.number, FullName(u));
    AdminMovementDto(m.id, m.date, m.description, KindName(m.kind), m.amount, accountNumber, userName)
  }

  /** `getAllBankMovements`: one DTO per stored movement, in the same order. */
  function AllBankMovements(b: Bank): (r: seq<AdminMovementDto>)
    ensures |r| == |b.movements|
    ensures forall k :: 0 <= k < |r| ==> r[k] == ToAdminDto(b, b.movements[k])
  {
    seq(|b.movements|, k requires 0 <= k < |b.movements| => ToAdminDto(b, b.movements[k]))
  }

  /** `MovementType.valueOf` on the enum names; any other text names no kind. */
  function KindOfName(s: string): (r: Option<Kind>)
    ensures forall k: Kind :: r == Some(k) <==> KindName(k) == s
  {
    if s == "INCOME" then Some(Income)
    else if s == "EXPENSE" then Some(Expense)
    else None
  }

  /** Reading a movement back from an administrator DTO, with the account taken from
      its account number. */
  function MovementOfAdminDto(dto: AdminMovementDto): (r: Option<Movement>)
    ensures r.Some? <==> KindOfName(dto.kind).Some?
    ensures r.Some? ==> r.value.id == dto.id && r.value.account == dto.accountNumber && r.value.amount == dto.amount
  {
    match KindOfName(dto.kind)
    case None => None
    case Some(k) => Some(Movement(dto.id, dto.accountNumber, dto.date, dto.description, k, dto.amount))
  }

  /** A movement whose account reference resolves is read back unchanged from its DTO. */
  lemma AdminDtoRoundTrip(b: Bank, m: Movement)
    requires FindAccount(b, m.account).Some?
    ensures MovementOfAdminDto(ToAdminDto(b, m)) == Some(m)
  {
    assert KindOfName(KindName(m.kind)) == Some(m.kind);
  }

  /** What the listing shows for `m` when nothing is lost: the movement reads back from
      the row, which names the account number and the full name of a user holding an
      account with that number. */
  ghost predicate Shows(b: Bank, dto: AdminMovementDto, m: Movement) {
    && MovementOfAdminDto(dto) == Some(m)
    && dto.accountNumber == m.account
    && exists u :: u in b.users && dto.userName == FullName(u)
         && exists a :: a in b.accounts && a.number == m.account && a.owner == u.id
  }

  /** In a valid store the listing loses nothing: no row falls back to "N/A" or to
      "Desconocido", and every movement can be read back from its row. */
  lemma {:induction false} AdminListingRecoversLog(b: Bank)
    requires Valid(b)
    ensures forall k :: 0 <= k < |b.movements| ==> Shows(b, AllBankMovements(b)[k], b.movements[k])
  {
    var dtos := AllBankMovements(b);
    forall k | 0 <= k < |b.movements| ensures Shows(b, dtos[k], b.movements[k]) {
      var m := b.movements[k];
      ResolvesInValid(b, m.account);
      AdminDtoRoundTrip(b, m);
      var a := FindAccount(b, m.account).value;
      var u := OwnerOf(b, a).value;
      assert u in b.users && a in b.accounts && a.number == m.account && a.owner == u.id;
      assert dtos[k].userName == FullName(u);
    }
  }

  /** In a valid store a recorded account number resolves, and so does its owner. */
  lemma ResolvesInValid(b: Bank, n: AccountNumber)
    requires Valid(b)
    requires n in Numbers(b.accounts)
    ensures FindAccount(b, n).Some? && OwnerOf(b, FindAccount(b, n).value).Some?
  {
    var i :| 0 <= i < |b.accounts| && Numbers(b.accounts)[i] == n;
    var a := FindAccount(b, n).value;
    var j :| 0 <= j < |b.accounts| && b.accounts[j] == a;
    assert a.owner in UserIds(b.users);
  }
}
