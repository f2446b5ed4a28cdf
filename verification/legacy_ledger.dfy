/** The legacy `TransaccionService`: deposit, withdrawal, transfer between two
    accounts of the same user, and transfer to any account of the bank. Every
    operation runs its guards in a fixed order and touches the store only when all
    of them pass; a refusal carries no store, so the caller's store is unchanged. */
module LegacyLedger {
  import opened Common
  import opened Bank
  import opened Chronology
  import opened Requests
  import opened Responses

  /** The request description when it has a character above the space, else `fallback`
      (`d != null && !d.trim().isEmpty() ? d : fallback`). */
  function DescriptionOr(d: Option<string>, fallback: string): string {
    if d.Some? && !IsBlank(d.value) then d.value else fallback
  }

  /** `mapMovimientoToDTO`: the account columns come from the referenced account,
      or are null / "Cuenta Desconocida" when the reference does not resolve. */
  function MapMovimientoToDto(b: Bank, m: Movement): (r: MovimientoDto)
    ensures r.id == m.id && r.fecha == m.date && r.descripcion == m.description
    ensures r.tipo == m.kind && r.monto == m.amount
    ensures r.cuentaId.None? <==> FindAccount(b, m.account).None?
    ensures r.cuentaId.Some? ==> r.numeroCuenta == m.account
    ensures r.cuentaId.None? ==> r.numeroCuenta == "Cuenta Desconocida"
  {
    match FindAccount(b, m.account)
    case Some(a) => MovimientoDto(m.id, Some(a.id), a.number, m.date, m.description, m.kind, m.amount)
    case None => MovimientoDto(m.id, None, "Cuenta Desconocida", m.date, m.description, m.kind, m.amount)
  }

  function MapMovimientoDtos(b: Bank, ms: seq<Movement>): (r: seq<MovimientoDto>)
    ensures |r| == |ms|
    ensures forall k :: 0 <= k < |ms| ==> r[k] == MapMovimientoToDto(b, ms[k])
  {
    seq(|ms|, k requires 0 <= k < |ms| => MapMovimientoToDto(b, ms[k]))
  }

  /** In a valid store every recorded movement maps to a DTO naming its own account. */
  lemma MappedMovementsNameTheirAccount(b: Bank, m: Movement)
    requires Valid(b)
    requires m in b.movements
    ensures MapMovimientoToDto(b, m).cuentaId.Some?
    ensures MapMovimientoToDto(b, m).numeroCuenta == m.account
  {
    var k :| 0 <= k < |b.movements| && b.movements[k] == m;
    assert m.account in Numbers(b.accounts);
  }

  // ------------------------------------------------------------------ deposit

  /** `realizarDeposito`. */
  function Deposit(b: Bank, req: MovimientoRequest, userId: UserId, today: Date): (r: Result<Posted>)
    ensures !UserExists(b, userId) ==> r == Err(Error(RuntimeException, UserNotFound))
    ensures (UserExists(b, userId) && !Owns(b, req.numeroCuenta, userId)) ==>
      (r == Err(Error(IllegalArgumentException, AccountNotOwned)))
    ensures (UserExists(b, userId) && Owns(b, req.numeroCuenta, userId) && req.monto.None?) ==>
      (r == Err(Error(NullPointerException, NullArgument)))
    ensures (UserExists(b, userId) && Owns(b, req.numeroCuenta, userId) && req.monto.Some? && req.monto.value <= 0) ==>
      (r == Err(Error(IllegalArgumentException, NonPositiveAmount)))
    ensures r.Ok? <==> UserExists(b, userId) && Owns(b, req.numeroCuenta, userId) && req.monto.Some? && req.monto.value > 0
    ensures r.Ok? ==> Posts(b, r.value) && OnlyMoved(b, r.value.bank, req.numeroCuenta.value, req.monto.value)
    ensures r.Ok? ==> (r.value.movements ==
      [Movement(NextMovementId(b), req.numeroCuenta.value, today, DescriptionOr(req.descripcion, "Depósito"), Income, req.monto.value)])
  {
    if !UserExists(b, userId) then Err(Error(RuntimeException, UserNotFound))
    else match OwnedAccountIndex(b, req.numeroCuenta, userId)
      case None => Err(Error(IllegalArgumentException, AccountNotOwned))
      case Some(i) =>
        if req.monto.None? then Err(Error(NullPointerException, NullArgument))
        else
        var amount := req.monto.value;
        if amount <= 0 then Err(Error(IllegalArgumentException, NonPositiveAmount))
        else
          var a := b.accounts[i];
          var m := Movement(NextMovementId(b), a.number, today, DescriptionOr(req.descripcion, "Depósito"), Income, amount);
          Ok(PostOne(b, i, a.number, amount, [m]))
  }

  // --------------------------------------------------------------- withdrawal

  /** `realizarRetiro`. */
  function Withdraw(b: Bank, req: MovimientoRequest, userId: UserId, today: Date): (r: Result<Posted>)
    ensures !UserExists(b, userId) ==> r == Err(Error(RuntimeException, UserNotFound))
    ensures (UserExists(b, userId) && !Owns(b, req.numeroCuenta, userId)) ==>
      (r == Err(Error(IllegalArgumentException, AccountNotOwned)))
    ensures (UserExists(b, userId) && Owns(b, req.numeroCuenta, userId) && req.monto.None?) ==>
      (r == Err(Error(NullPointerException, NullArgument)))
    ensures (UserExists(b, userId) && Owns(b, req.numeroCuenta, userId) && req.monto.Some? && req.monto.value <= 0) ==>
      (r == Err(Error(IllegalArgumentException, NonPositiveAmount)))
    ensures (UserExists(b, userId) && Owns(b, req.numeroCuenta, userId) && req.monto.Some? && req.monto.value > 0
      && Balance(b, req.numeroCuenta.value).value < req.monto.value) ==>
      (r == Err(Error(IllegalArgumentException, InsufficientFunds)))
    ensures r.Ok? <==> (UserExists(b, userId) && Owns(b, req.numeroCuenta, userId) && req.monto.Some? && req.monto.value > 0
      && Balance(b, req.numeroCuenta.value).value >= req.monto.value)
    ensures r.Ok? ==> Posts(b, r.value) && OnlyMoved(b, r.value.bank, req.numeroCuenta.value, -req.monto.value)
    ensures r.Ok? ==> Balance(r.value.bank, req.numeroCuenta.value).value >= 0
    ensures r.Ok? ==> (r.value.movements ==
      [Movement(NextMovementId(b), req.numeroCuenta.value, today, DescriptionOr(req.descripcion, "Retiro"), Expense, req.monto.value)])
  {
    if !UserExists(b, userId) then Err(Error(RuntimeException, UserNotFound))
    else match OwnedAccountIndex(b, req.numeroCuenta, userId)
      case None => Err(Error(IllegalArgumentException, AccountNotOwned))
      case Some(i) =>
        if req.monto.None? then Err(Error(NullPointerException, NullArgument))
        else
        var amount := req.monto.value;
        var a := b.accounts[i];
        if amount <= 0 then Err(Error(IllegalArgumentException, NonPositiveAmount))
        else if a.balance < amount then Err(Error(IllegalArgumentException, InsufficientFunds))
        else
          var m := Movement(NextMovementId(b), a.number, today, DescriptionOr(req.descripcion, "Retiro"), Expense, amount);
          Ok(PostOne(b, i, a.number, -amount, [m]))
  }

  // ---------------------------------------------------------- internal transfer

  /** Both request numbers name distinct accounts of the user, who exists. */
  predicate TransferAccountsOk(b: Bank, req: TransferenciaRequest, userId: UserId) {
    && UserExists(b, userId)
    && req.numeroCuentaOrigen != req.numeroCuentaDestino
    && Owns(b, req.numeroCuentaOrigen, userId)
    && Owns(b, req.numeroCuentaDestino, userId)
  }

  /** `realizarTransferencia`: guards run user, same number, origin ownership,
      destination ownership, positive amount, funds. */
  function Transfer(b: Bank, req: TransferenciaRequest, userId: UserId, today: Date): (r: Result<Posted>)
    ensures !UserExists(b, userId) ==> r == Err(Error(RuntimeException, UserNotFound))
    ensures (UserExists(b, userId) && req.numeroCuentaOrigen.None?) ==>
      (r == Err(Error(NullPointerException, NullArgument)))
    ensures (UserExists(b, userId) && req.numeroCuentaOrigen.Some? && req.numeroCuentaOrigen == req.numeroCuentaDestino) ==>
      (r == Err(Error(IllegalArgumentException, SameAccount)))
    ensures (UserExists(b, userId) && req.numeroCuentaOrigen.Some? && req.numeroCuentaOrigen != req.numeroCuentaDestino
      && !Owns(b, req.numeroCuentaOrigen, userId)) ==>
      (r == Err(Error(IllegalArgumentException, OriginNotOwned)))
    ensures (UserExists(b, userId) && req.numeroCuentaOrigen != req.numeroCuentaDestino
      && Owns(b, req.numeroCuentaOrigen, userId) && !Owns(b, req.numeroCuentaDestino, userId)) ==>
      (r == Err(Error(IllegalArgumentException, DestinationNotOwned)))
    ensures (TransferAccountsOk(b, req, userId) && req.monto.None?) ==>
      (r == Err(Error(NullPointerException, NullArgument)))
    ensures (TransferAccountsOk(b, req, userId) && req.monto.Some? && req.monto.value <= 0) ==>
      (r == Err(Error(IllegalArgumentException, NonPositiveAmount)))
    ensures (TransferAccountsOk(b, req, userId) && req.monto.Some? && req.monto.value > 0
      && Balance(b, req.numeroCuentaOrigen.value).value < req.monto.value) ==>
      (r == Err(Error(IllegalArgumentException, InsufficientFunds)))
    ensures r.Ok? <==> (TransferAccountsOk(b, req, userId) && req.monto.Some? && req.monto.value > 0
      && Balance(b, req.numeroCuentaOrigen.value).value >= req.monto.value)
    ensures r.Ok? ==> r.value == Move(b, FindAccountIndex(b.accounts, req.numeroCuentaOrigen.value).value,
      FindAccountIndex(b.accounts, req.numeroCuentaDestino.value).value, req, today)
  {
    if !UserExists(b, userId) then Err(Error(RuntimeException, UserNotFound))
    else if req.numeroCuentaOrigen.None? then Err(Error(NullPointerException, NullArgument))
    else if req.numeroCuentaOrigen == req.numeroCuentaDestino then Err(Error(IllegalArgumentException, SameAccount))
    else match OwnedAccountIndex(b, req.numeroCuentaOrigen, userId)
      case None => Err(Error(IllegalArgumentException, OriginNotOwned))
      case Some(i) =>
        match OwnedAccountIndex(b, req.numeroCuentaDestino, userId)
        case None => Err(Error(IllegalArgumentException, DestinationNotOwned))
        case Some(j) =>
          if req.monto.None? then Err(Error(NullPointerException, NullArgument))
          else if req.monto.value <= 0 then Err(Error(IllegalArgumentException, NonPositiveAmount))
          else if b.accounts[i].balance < req.monto.value then Err(Error(IllegalArgumentException, InsufficientFunds))
          else Ok(Move(b, i, j, req, today))
  }

  /** The postings of an internal transfer that passed every guard: the debit
      on the origin `i`, then the credit on the destination `j`, both of one owner. */
  function Move(b: Bank, i: nat, j: nat, req: TransferenciaRequest, today: Date): (p: Posted)
    requires req.numeroCuentaOrigen.Some? && req.numeroCuentaDestino.Some? && req.monto.Some?
    requires req.numeroCuentaOrigen != req.numeroCuentaDestino
    requires i < |b.accounts| && b.accounts[i].number == req.numeroCuentaOrigen.value
    requires j < |b.accounts| && b.accounts[j].number == req.numeroCuentaDestino.value
    requires FindAccountIndex(b.accounts, req.numeroCuentaOrigen.value) == Some(i)
    requires FindAccountIndex(b.accounts, req.numeroCuentaDestino.value) == Some(j)
    requires b.accounts[i].owner == b.accounts[j].owner
    ensures Posts(b, p)
    ensures TwoMoved(b, p.bank, req.numeroCuentaOrigen.value, req.numeroCuentaDestino.value, req.monto.value)
    ensures Total(p.bank.accounts) == Total(b.accounts)
    ensures forall u :: Total(OwnedBy(p.bank.accounts, u)) == Total(OwnedBy(b.accounts, u))
    ensures p.movements == [
      Movement(NextMovementId(b), req.numeroCuentaOrigen.value, today,
        DescriptionOr(req.descripcion, "Transferencia saliente a " + req.numeroCuentaDestino.value), Expense, req.monto.value),
      Movement(NextMovementId(b) + 1, req.numeroCuentaDestino.value, today,
        DescriptionOr(req.descripcion, "Transferencia entrante de " + req.numeroCuentaOrigen.value), Income, req.monto.value)]
  {
    var origin := req.numeroCuentaOrigen.value;
    var destination := req.numeroCuentaDestino.value;
    var id := NextMovementId(b);
    var out := Movement(id, origin, today,
      DescriptionOr(req.descripcion, "Transferencia saliente a " + destination), Expense, req.monto.value);
    var into := Movement(id + 1, destination, today,
      DescriptionOr(req.descripcion, "Transferencia entrante de " + origin), Income, req.monto.value);
    PostTwo(b, i, origin, j, destination, req.monto.value, [out, into])
  }

  // ---------------------------------------------------------- external transfer

  datatype ExternalOutcome = ExternalOutcome(posted: Posted, response: TransferenciaExternaResponse)

  /** The origin is the user's, the destination exists anywhere in the bank, and they differ. */
  predicate ExternalAccountsOk(b: Bank, req: TransferenciaExternaRequest, userId: UserId) {
    && UserExists(b, userId)
    && Owns(b, req.cuentaOrigen, userId)
    && req.cuentaDestino.Some? && FindAccount(b, req.cuentaDestino.value).Some?
    && req.cuentaOrigen != req.cuentaDestino
  }

  /** The description of the debit recorded on the origin. */
  function OutgoingDescription(req: TransferenciaExternaRequest): string
    requires req.cuentaDestino.Some?
  {
    "Transferencia a " + FormatArg(req.nombreDestino) + " (" + req.cuentaDestino.value
      + ", Banco: " + FormatArg(req.bancoDestino) + "). " + Motive(req.descripcion)
  }

  /** The description of the credit recorded on the destination. */
  function IncomingDescription(sender: User, req: TransferenciaExternaRequest): string
    requires req.cuentaOrigen.Some?
  {
    "Transferencia recibida de " + sender.firstName + " " + sender.lastName
      + " (Cuenta: " + req.cuentaOrigen.value + "). " + Motive(req.descripcion)
  }

  /** Both descriptions fit the description column. */
  predicate DescriptionsFit(sender: User, req: TransferenciaExternaRequest)
    requires req.cuentaOrigen.Some? && req.cuentaDestino.Some?
  {
    FitsColumn(OutgoingDescription(req), DescriptionLength) && FitsColumn(IncomingDescription(sender, req), DescriptionLength)
  }

  /** The response of an external transfer: the fixed message, the origin's new
      balance, the DTO of the debit and the origin's movements, newest first
      (`findByCuentaIdOrderByFechaDesc`). */
  function Report(b: Bank, origin: AccountNumber, debit: Movement): TransferenciaExternaResponse
    requires Balance(b, origin).Some?
  {
    TransferenciaExternaResponse(
      "Transferencia externa realizada con exito.",
      Balance(b, origin).value,
      MapMovimientoToDto(b, debit),
      MapMovimientoDtos(b, SortNewestFirst(MovementsOn(b.movements, origin))))
  }

  /** The debit, origin `i` and destination `j` having passed every guard. */
  function Settle(b: Bank, i: nat, j: nat, req: TransferenciaExternaRequest, sender: User, today: Date): (o: ExternalOutcome)
    requires req.cuentaOrigen.Some? && req.cuentaDestino.Some? && req.monto.Some?
    requires req.cuentaOrigen != req.cuentaDestino
    requires i < |b.accounts| && b.accounts[i].number == req.cuentaOrigen.value
    requires j < |b.accounts| && b.accounts[j].number == req.cuentaDestino.value
    requires FindAccountIndex(b.accounts, req.cuentaOrigen.value) == Some(i)
    requires FindAccountIndex(b.accounts, req.cuentaDestino.value) == Some(j)
    ensures Posts(b, o.posted)
    ensures TwoMoved(b, o.posted.bank, req.cuentaOrigen.value, req.cuentaDestino.value, req.monto.value)
    ensures Total(o.posted.bank.accounts) == Total(b.accounts)
    ensures o.posted.movements == [
      Movement(NextMovementId(b), req.cuentaOrigen.value, today, OutgoingDescription(req), Expense, req.monto.value),
      Movement(NextMovementId(b) + 1, req.cuentaDestino.value, today, IncomingDescription(sender, req), Income, req.monto.value)]
    ensures Balance(o.posted.bank, req.cuentaOrigen.value).Some?
    ensures o.response == Report(o.posted.bank, req.cuentaOrigen.value, o.posted.movements[0])
  {
    var origin := req.cuentaOrigen.value;
    var id := NextMovementId(b);
    var out := Movement(id, origin, today, OutgoingDescription(req), Expense, req.monto.value);
    var into := Movement(id + 1, req.cuentaDestino.value, today, IncomingDescription(sender, req), Income, req.monto.value);
    var p := PostTwo(b, i, origin, j, req.cuentaDestino.value, req.monto.value, [out, into]);
    ExternalOutcome(p, Report(p.bank, origin, out))
  }

  /** `procesarTransferenciaExterna`: guards run user, origin ownership, destination
      existence, same account, positive amount, funds. The formatted descriptions are
      not checked: one longer than its column makes the insert fail, and the whole
      transaction is rolled back. */
  function ExternalTransfer(b: Bank, req: TransferenciaExternaRequest, userId: UserId, today: Date): (r: Result<ExternalOutcome>)
    ensures !UserExists(b, userId) ==> r == Err(Error(RuntimeException, UserNotFound))
    ensures (UserExists(b, userId) && !Owns(b, req.cuentaOrigen, userId)) ==>
      (r == Err(Error(IllegalArgumentException, OriginNotOwned)))
    ensures (UserExists(b, userId) && Owns(b, req.cuentaOrigen, userId)
      && (req.cuentaDestino.None? || FindAccount(b, req.cuentaDestino.value).None?)) ==>
      (r == Err(Error(IllegalArgumentException, DestinationMissing)))
    ensures (UserExists(b, userId) && Owns(b, req.cuentaOrigen, userId) && req.cuentaOrigen == req.cuentaDestino) ==>
      (r == Err(Error(IllegalArgumentException, SameAccount)))
    ensures (ExternalAccountsOk(b, req, userId) && req.monto.None?) ==>
      (r == Err(Error(NullPointerException, NullArgument)))
    ensures (ExternalAccountsOk(b, req, userId) && req.monto.Some? && req.monto.value <= 0) ==>
      (r == Err(Error(IllegalArgumentException, NonPositiveAmount)))
    ensures (ExternalAccountsOk(b, req, userId) && req.monto.Some? && req.monto.value > 0
      && Balance(b, req.cuentaOrigen.value).value < req.monto.value) ==>
      (r == Err(Error(IllegalArgumentException, InsufficientFunds)))
    ensures (ExternalAccountsOk(b, req, userId) && req.monto.Some? && req.monto.value > 0
      && Balance(b, req.cuentaOrigen.value).value >= req.monto.value
      && !DescriptionsFit(FindUser(b.users, userId).value, req)) ==>
      (r == Err(Error(DataIntegrityViolation, ValueTooLong)))
    ensures r.Ok? <==> (ExternalAccountsOk(b, req, userId) && req.monto.Some? && req.monto.value > 0
      && Balance(b, req.cuentaOrigen.value).value >= req.monto.value
      && DescriptionsFit(FindUser(b.users, userId).value, req))
    ensures r.Ok? ==> r.value == Settle(b, FindAccountIndex(b.accounts, req.cuentaOrigen.value).value,
      FindAccountIndex(b.accounts, req.cuentaDestino.value).value, req, FindUser(b.users, userId).value, today)
  {
    if !UserExists(b, userId) then Err(Error(RuntimeException, UserNotFound))
    else match OwnedAccountIndex(b, req.cuentaOrigen, userId)
      case None => Err(Error(IllegalArgumentException, OriginNotOwned))
      case Some(i) =>
        if req.cuentaDestino.None? || FindAccountIndex(b.accounts, req.cuentaDestino.value).None? then
          Err(Error(IllegalArgumentException, DestinationMissing))
        else
          var j := FindAccountIndex(b.accounts, req.cuentaDestino.value).value;
          if b.accounts[i].number == b.accounts[j].number then Err(Error(IllegalArgumentException, SameAccount))
          else if req.monto.None? then Err(Error(NullPointerException, NullArgument))
          else
          var amount := req.monto.value;
          if amount <= 0 then Err(Error(IllegalArgumentException, NonPositiveAmount))
          else if b.accounts[i].balance < amount then Err(Error(IllegalArgumentException, InsufficientFunds))
          else if !DescriptionsFit(FindUser(b.users, userId).value, req) then Err(Error(DataIntegrityViolation, ValueTooLong))
          else Ok(Settle(b, i, j, req, FindUser(b.users, userId).value, today))
  }

  // ------------------------------------------------------------- properties

  /** Validation bounds the reason by 255 characters, but the debit's description
      prefixes it with the destination and "Motivo: ": a validated, funded transfer
      whose reason has more than 247 characters is refused by the database. */
  lemma {:induction false} ValidatedReasonCanOverflow(b: Bank, req: TransferenciaExternaRequest, userId: UserId, today: Date)
    requires ValidTransferenciaExternaRequest(req)
    requires ExternalAccountsOk(b, req, userId)
    requires req.monto.Some? && Balance(b, req.cuentaOrigen.value).value >= req.monto.value
    requires req.descripcion.Some? && |req.descripcion.value| > 247
    ensures ExternalTransfer(b, req, userId, today) == Err(Error(DataIntegrityViolation, ValueTooLong))
  {
    TransferenciaExternaRequestMeaning(req);
    assert |Motive(req.descripcion)| > DescriptionLength;
    assert !FitsColumn(OutgoingDescription(req), DescriptionLength);
  }

  /** An external transfer moves the amount from the origin to the destination
      and changes no other balance. */
  lemma {:induction false} ExternalTransferMoves(b: Bank, req: TransferenciaExternaRequest, userId: UserId, today: Date)
    requires ExternalTransfer(b, req, userId, today).Ok?
    ensures TwoMoved(b, ExternalTransfer(b, req, userId, today).value.posted.bank,
                     req.cuentaOrigen.value, req.cuentaDestino.value, req.monto.value)
  {
    var i := FindAccountIndex(b.accounts, req.cuentaOrigen.value).value;
    var j := FindAccountIndex(b.accounts, req.cuentaDestino.value).value;
    var sender := FindUser(b.users, userId).value;
    assert ExternalTransfer(b, req, userId, today).value == Settle(b, i, j, req, sender, today);
  }

  lemma {:induction false} DepositKeepsBooks(b: Bank, req: MovimientoRequest, userId: UserId, today: Date)
    requires Valid(b) && NonNegative(b)
    requires Deposit(b, req, userId, today).Ok?
    ensures KeepsBooks(b, Deposit(b, req, userId, today).value)
  {
    OneKeepsBooks(b, Deposit(b, req, userId, today).value, req.numeroCuenta.value, req.monto.value);
  }

  lemma {:induction false} WithdrawKeepsBooks(b: Bank, req: MovimientoRequest, userId: UserId, today: Date)
    requires Valid(b) && NonNegative(b)
    requires Withdraw(b, req, userId, today).Ok?
    ensures KeepsBooks(b, Withdraw(b, req, userId, today).value)
  {
    OneKeepsBooks(b, Withdraw(b, req, userId, today).value, req.numeroCuenta.value, -req.monto.value);
  }

  lemma {:induction false} TransferKeepsBooks(b: Bank, req: TransferenciaRequest, userId: UserId, today: Date)
    requires Valid(b) && NonNegative(b)
    requires Transfer(b, req, userId, today).Ok?
    ensures KeepsBooks(b, Transfer(b, req, userId, today).value)
  {
    TwoKeepsBooks(b, Transfer(b, req, userId, today).value,
                  req.numeroCuentaOrigen.value, req.numeroCuentaDestino.value, req.monto.value);
  }

  lemma {:induction false} ExternalTransferKeepsBooks(b: Bank, req: TransferenciaExternaRequest, userId: UserId, today: Date)
    requires Valid(b) && NonNegative(b)
    requires ExternalTransfer(b, req, userId, today).Ok?
    ensures KeepsBooks(b, ExternalTransfer(b, req, userId, today).value.posted)
  {
    var i := FindAccountIndex(b.accounts, req.cuentaOrigen.value).value;
    var j := FindAccountIndex(b.accounts, req.cuentaDestino.value).value;
    var sender := FindUser(b.users, userId).value;
    assert ExternalTransfer(b, req, userId, today).value == Settle(b, i, j, req, sender, today);
    SettleTransfers(b, i, j, req, sender, today);
    TransferredKeepsBooks(b, Settle(b, i, j, req, sender, today).posted,
                          req.cuentaOrigen.value, req.cuentaDestino.value, req.monto.value);
  }

  /** The settled posting debits the origin, credits the destination, and records both. */
  lemma SettleTransfers(b: Bank, i: nat, j: nat, req: TransferenciaExternaRequest, sender: User, today: Date)
    requires req.cuentaOrigen.Some? && req.cuentaDestino.Some? && req.monto.Some?
    requires req.cuentaOrigen != req.cuentaDestino
    requires i < |b.accounts| && b.accounts[i].number == req.cuentaOrigen.value
    requires j < |b.accounts| && b.accounts[j].number == req.cuentaDestino.value
    requires FindAccountIndex(b.accounts, req.cuentaOrigen.value) == Some(i)
    requires FindAccountIndex(b.accounts, req.cuentaDestino.value) == Some(j)
    ensures Transferred(b, Settle(b, i, j, req, sender, today).posted, req.cuentaOrigen.value, req.cuentaDestino.value, req.monto.value)
  {
  }

  /** Withdrawing what was just deposited, from the same account, is accepted and
      restores every balance; the log keeps both movements. */
  lemma {:induction false} DepositThenWithdraw(b: Bank, n: AccountNumber, amount: Cents, d1: Option<string>, d2: Option<string>,
                                               userId: UserId, today: Date, later: Date)
    requires NonNegative(b)
    requires Deposit(b, MovimientoRequest(Some(n), Some(amount), d1, None), userId, today).Ok?
    ensures var p := Deposit(b, MovimientoRequest(Some(n), Some(amount), d1, None), userId, today).value;
      var q := Withdraw(p.bank, MovimientoRequest(Some(n), Some(amount), d2, None), userId, later);
      && q.Ok?
      && (forall o :: Balance(q.value.bank, o) == Balance(b, o))
      && q.value.bank.movements == b.movements + p.movements + q.value.movements
  {
    DepositAccepted(b, MovimientoRequest(Some(n), Some(amount), d1, None), userId, today);
    WithdrawAfterDeposit(b, Deposit(b, MovimientoRequest(Some(n), Some(amount), d1, None), userId, today).value,
                         n, amount, d2, userId, later);
    WithdrawAccepted(Deposit(b, MovimientoRequest(Some(n), Some(amount), d1, None), userId, today).value.bank,
                     MovimientoRequest(Some(n), Some(amount), d2, None), userId, later);
    MovedBack(b, Deposit(b, MovimientoRequest(Some(n), Some(amount), d1, None), userId, today).value.bank,
              Withdraw(Deposit(b, MovimientoRequest(Some(n), Some(amount), d1, None), userId, today).value.bank,
                       MovimientoRequest(Some(n), Some(amount), d2, None), userId, later).value.bank, n, amount);
  }

  /** What an accepted deposit implies about the request and the posting. */
  lemma DepositAccepted(b: Bank, req: MovimientoRequest, userId: UserId, today: Date)
    requires Deposit(b, req, userId, today).Ok?
    ensures UserExists(b, userId) && Owns(b, req.numeroCuenta, userId) && req.monto.Some? && req.monto.value > 0
    ensures Posts(b, Deposit(b, req, userId, today).value)
    ensures OnlyMoved(b, Deposit(b, req, userId, today).value.bank, req.numeroCuenta.value, req.monto.value)
  {
  }

  /** What an accepted withdrawal implies about the posting. */
  lemma WithdrawAccepted(b: Bank, req: MovimientoRequest, userId: UserId, today: Date)
    requires Withdraw(b, req, userId, today).Ok?
    ensures Posts(b, Withdraw(b, req, userId, today).value)
    ensures OnlyMoved(b, Withdraw(b, req, userId, today).value.bank, req.numeroCuenta.value, -req.monto.value)
  {
  }

  /** After a posting that raised account `n` of a user by `amount`, withdrawing that
      amount from it is accepted. */
  lemma WithdrawAfterDeposit(b: Bank, p: Posted, n: AccountNumber, amount: Cents, d: Option<string>, userId: UserId, later: Date)
    requires NonNegative(b) && Posts(b, p) && OnlyMoved(b, p.bank, n, amount)
    requires UserExists(b, userId) && Owns(b, Some(n), userId) && amount > 0
    ensures Withdraw(p.bank, MovimientoRequest(Some(n), Some(amount), d, None), userId, later).Ok?
  {
    PostsKeepsOwnership(b, p);
    NonNegativeBalances(b);
  }

  /** What the external-transfer response reports, in a valid store: the origin's
      balance, the debit among the recent movements, and only the origin's
      movements, newest first. */
  lemma ReportFacts(b: Bank, origin: AccountNumber, debit: Movement)
    requires Valid(b) && Balance(b, origin).Some?
    requires debit in b.movements && debit.account == origin
    ensures Some(Report(b, origin, debit).nuevoSaldoCuentaOrigen) == Balance(b, origin)
    ensures Report(b, origin, debit).ultimoMovimientoOrigen in Report(b, origin, debit).movimientosRecientes
    ensures |Report(b, origin, debit).movimientosRecientes| == |MovementsOn(b.movements, origin)|
    ensures forall d :: d in Report(b, origin, debit).movimientosRecientes ==> d.numeroCuenta == origin && d.cuentaId.Some?
    ensures var recent := Report(b, origin, debit).movimientosRecientes;
      forall k, l :: 0 <= k < l < |recent| ==> recent[k].fecha >= recent[l].fecha
  {
    var sorted := SortNewestFirst(MovementsOn(b.movements, origin));
    assert Report(b, origin, debit).movimientosRecientes == MapMovimientoDtos(b, sorted);
    SortKeepsMembers(MovementsOn(b.movements, origin), debit);
    forall l | 0 <= l < |sorted|
      ensures sorted[l] in b.movements && sorted[l].account == origin
    {
      SortKeepsMembers(MovementsOn(b.movements, origin), sorted[l]);
    }
    RecentFacts(b, sorted, origin, debit);
  }

  /** The recent-movements list of a report, for any newest-first list of recorded
      movements of the origin that holds the debit. */
  lemma RecentFacts(b: Bank, sorted: seq<Movement>, origin: AccountNumber, debit: Movement)
    requires Valid(b)
    requires NewestFirst(sorted) && debit in sorted
    requires forall l :: 0 <= l < |sorted| ==> sorted[l] in b.movements && sorted[l].account == origin
    ensures var recent := MapMovimientoDtos(b, sorted);
      && MapMovimientoToDto(b, debit) in recent
      && (forall d :: d in recent ==> d.numeroCuenta == origin && d.cuentaId.Some?)
      && (forall k, l :: 0 <= k < l < |recent| ==> recent[k].fecha >= recent[l].fecha)
  {
    var recent := MapMovimientoDtos(b, sorted);
    var k :| 0 <= k < |sorted| && sorted[k] == debit;
    assert recent[k] == MapMovimientoToDto(b, debit);
    RecordedDtosNameAccount(b, sorted, origin);
  }

  /** DTOs of recorded movements of one account, in a valid store, all name that account. */
  lemma RecordedDtosNameAccount(b: Bank, ms: seq<Movement>, n: AccountNumber)
    requires Valid(b)
    requires forall l :: 0 <= l < |ms| ==> ms[l] in b.movements && ms[l].account == n
    ensures forall d :: d in MapMovimientoDtos(b, ms) ==> d.numeroCuenta == n && d.cuentaId.Some?
  {
    var dtos := MapMovimientoDtos(b, ms);
    forall d | d in dtos
      ensures d.numeroCuenta == n && d.cuentaId.Some?
    {
      var l :| 0 <= l < |dtos| && dtos[l] == d;
      MappedMovementsNameTheirAccount(b, ms[l]);
    }
  }

  /** After a successful external transfer from a valid store, the response
      reports the debited origin balance and the debit among the origin's
      recent movements. */
  lemma {:induction false} ExternalTransferReport(b: Bank, req: TransferenciaExternaRequest, userId: UserId, today: Date)
    requires Valid(b)
    requires ExternalTransfer(b, req, userId, today).Ok?
    ensures var o := ExternalTransfer(b, req, userId, today).value;
      && o.response.nuevoSaldoCuentaOrigen == Balance(b, req.cuentaOrigen.value).value - req.monto.value
      && o.response.ultimoMovimientoOrigen in o.response.movimientosRecientes
      && o.response.ultimoMovimientoOrigen.numeroCuenta == req.cuentaOrigen.value
      && o.response.ultimoMovimientoOrigen.tipo == Expense
      && (forall d :: d in o.response.movimientosRecientes ==> d.numeroCuenta == req.cuentaOrigen.value)
  {
    var o := ExternalTransfer(b, req, userId, today).value;
    var origin := req.cuentaOrigen.value;
    assert TwoMoved(b, o.posted.bank, origin, req.cuentaDestino.value, req.monto.value);
    assert o.response == Report(o.posted.bank, origin, o.posted.movements[0]);
    assert o.response.nuevoSaldoCuentaOrigen == Balance(o.posted.bank, origin).value;
    FoundInNumbers(b, origin);
    FoundInNumbers(b, req.cuentaDestino.value);
    BothRecorded(o.posted.movements, Numbers(b.accounts));
    PostsKeepsValid(b, o.posted);
    var debit := o.posted.movements[0];
    assert debit in o.posted.bank.movements by {
      assert o.posted.bank.movements[|b.movements|] == debit;
    }
    ReportFacts(o.posted.bank, req.cuentaOrigen.value, debit);
  }
}
