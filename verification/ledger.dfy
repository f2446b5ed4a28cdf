/** The newer `TransactionServiceImpl`. Its guards differ from the legacy
    service's: no amount is checked for positivity (that is left to the request
    validators), a missing user is an IllegalArgumentException, the internal
    transfer compares the two numbers before anything else, and the external
    transfer debits the origin without crediting any account, recording both of
    its movements against the origin. */
module Ledger {
  import opened Common
  import opened Bank
  import opened Chronology
  import opened Requests
  import opened Responses

  /** The request description when it is non-null and non-empty, else `fallback`
      (`d != null && !d.isEmpty() ? d : fallback`); a description of spaces is kept. */
  function DescriptionUnlessEmpty(d: Option<string>, fallback: string): string {
    if d.Some? && |d.value| > 0 then d.value else fallback
  }

  /** `mapMovementToDTO`: the account columns come from the referenced account,
      or are null / "Unknown Account" when it does not resolve; the balance is never set. */
  function MapMovementToDto(b: Bank, m: Movement): (r: MovementDto)
    ensures r.id == m.id && r.date == m.date && r.description == m.description
    ensures r.kind == m.kind && r.amount == m.amount && r.balance.None?
    ensures r.accountId.None? <==> FindAccount(b, m.account).None?
    ensures r.accountId.Some? ==> r.accountNumber == m.account
    ensures r.accountId.None? ==> r.accountNumber == "Unknown Account"
  {
    match FindAccount(b, m.account)
    case Some(a) => MovementDto(m.id, Some(a.id), a.number, m.date, m.description, m.kind, m.amount, None)
    case None => MovementDto(m.id, None, "Unknown Account", m.date, m.description, m.kind, m.amount, None)
  }

  function MapMovementDtos(b: Bank, ms: seq<Movement>): (r: seq<MovementDto>)
    ensures |r| == |ms|
    ensures forall k :: 0 <= k < |ms| ==> r[k] == MapMovementToDto(b, ms[k])
  {
    seq(|ms|, k requires 0 <= k < |ms| => MapMovementToDto(b, ms[k]))
  }

  // ------------------------------------------------------------------ deposit

  /** `performDeposit`: the account must be the user's; any amount is added. */
  function Deposit(b: Bank, req: MovementRequest, userId: UserId, today: Date): (r: Result<Posted>)
    ensures !UserExists(b, userId) ==> r == Err(Error(IllegalArgumentException, UserNotFound))
    ensures (UserExists(b, userId) && !Owns(b, req.accountNumber, userId)) ==>
      (r == Err(Error(IllegalArgumentException, AccountNotOwned)))
    ensures (UserExists(b, userId) && Owns(b, req.accountNumber, userId) && req.amount.None?) ==>
      (r == Err(Error(NullPointerException, NullArgument)))
    ensures r.Ok? <==> UserExists(b, userId) && Owns(b, req.accountNumber, userId) && req.amount.Some?
    ensures r.Ok? ==> Posts(b, r.value) && OnlyMoved(b, r.value.bank, req.accountNumber.value, req.amount.value)
    ensures r.Ok? ==> (r.value.movements ==
      [Movement(NextMovementId(b), req.accountNumber.value, today,
        DescriptionUnlessEmpty(req.description, "Deposito en cuenta"), Income, req.amount.value)])
  {
    if !UserExists(b, userId) then Err(Error(IllegalArgumentException, UserNotFound))
    else match OwnedAccountIndex(b, req.accountNumber, userId)
      case None => Err(Error(IllegalArgumentException, AccountNotOwned))
      case Some(i) =>
        if req.amount.None? then Err(Error(NullPointerException, NullArgument))
        else
          var a := b.accounts[i];
          var m := Movement(NextMovementId(b), a.number, today,
            DescriptionUnlessEmpty(req.description, "Deposito en cuenta"), Income, req.amount.value);
          Ok(PostOne(b, i, a.number, req.amount.value, [m]))
  }

  // --------------------------------------------------------------- withdrawal

  /** `performWithdrawal`: refused exactly when the balance is below the amount. */
  function Withdraw(b: Bank, req: MovementRequest, userId: UserId, today: Date): (r: Result<Posted>)
    ensures !UserExists(b, userId) ==> r == Err(Error(IllegalArgumentException, UserNotFound))
    ensures (UserExists(b, userId) && !Owns(b, req.accountNumber, userId)) ==>
      (r == Err(Error(IllegalArgumentException, AccountNotOwned)))
    ensures (UserExists(b, userId) && Owns(b, req.accountNumber, userId) && req.amount.None?) ==>
      (r == Err(Error(NullPointerException, NullArgument)))
    ensures (UserExists(b, userId) && Owns(b, req.accountNumber, userId) && req.amount.Some?
      && Balance(b, req.accountNumber.value).value < req.amount.value) ==>
      (r == Err(Error(IllegalArgumentException, InsufficientFunds)))
    ensures r.Ok? <==> (UserExists(b, userId) && Owns(b, req.accountNumber, userId) && req.amount.Some?
      && Balance(b, req.accountNumber.value).value >= req.amount.value)
    ensures r.Ok? ==> Posts(b, r.value) && OnlyMoved(b, r.value.bank, req.accountNumber.value, -req.amount.value)
    ensures r.Ok? ==> Balance(r.value.bank, req.accountNumber.value).value >= 0
    ensures r.Ok? ==> (r.value.movements ==
      [Movement(NextMovementId(b), req.accountNumber.value, today,
        DescriptionUnlessEmpty(req.description, "Retiro de cuenta"), Expense, req.amount.value)])
  {
    if !UserExists(b, userId) then Err(Error(IllegalArgumentException, UserNotFound))
    else match OwnedAccountIndex(b, req.accountNumber, userId)
      case None => Err(Error(IllegalArgumentException, AccountNotOwned))
      case Some(i) =>
        if req.amount.None? then Err(Error(NullPointerException, NullArgument))
        else
          var a := b.accounts[i];
          if a.balance < req.amount.value then Err(Error(IllegalArgumentException, InsufficientFunds))
          else
            var m := Movement(NextMovementId(b), a.number, today,
              DescriptionUnlessEmpty(req.description, "Retiro de cuenta"), Expense, req.amount.value);
            Ok(PostOne(b, i, a.number, -req.amount.value, [m]))
  }

  // ---------------------------------------------------------- internal transfer

  /** Both request numbers name distinct accounts of the user, who exists. */
  predicate TransferAccountsOk(b: Bank, req: TransferRequest, userId: UserId) {
    && req.originAccountNumber != req.destinationAccountNumber
    && UserExists(b, userId)
    && Owns(b, req.originAccountNumber, userId)
    && Owns(b, req.destinationAccountNumber, userId)
  }

  /** `performTransfer`: guards run same number (which dereferences the origin
      number), user, origin ownership, destination ownership, funds. */
  function Transfer(b: Bank, req: TransferRequest, userId: UserId, today: Date): (r: Result<Posted>)
    ensures req.originAccountNumber.None? ==> r == Err(Error(NullPointerException, NullArgument))
    ensures (req.originAccountNumber.Some? && req.originAccountNumber == req.destinationAccountNumber) ==>
      (r == Err(Error(IllegalArgumentException, SameAccount)))
    ensures (req.originAccountNumber.Some? && req.originAccountNumber != req.destinationAccountNumber
      && !UserExists(b, userId)) ==>
      (r == Err(Error(IllegalArgumentException, UserNotFound)))
    ensures (req.originAccountNumber.Some? && req.originAccountNumber != req.destinationAccountNumber
      && UserExists(b, userId) && !Owns(b, req.originAccountNumber, userId)) ==>
      (r == Err(Error(IllegalArgumentException, OriginNotOwned)))
    ensures (req.originAccountNumber != req.destinationAccountNumber && UserExists(b, userId)
      && Owns(b, req.originAccountNumber, userId) && !Owns(b, req.destinationAccountNumber, userId)) ==>
      (r == Err(Error(IllegalArgumentException, DestinationNotOwned)))
    ensures (TransferAccountsOk(b, req, userId) && req.amount.None?) ==>
      (r == Err(Error(NullPointerException, NullArgument)))
    ensures (TransferAccountsOk(b, req, userId) && req.amount.Some?
      && Balance(b, req.originAccountNumber.value).value < req.amount.value) ==>
      (r == Err(Error(IllegalArgumentException, InsufficientFunds)))
    ensures r.Ok? <==> (TransferAccountsOk(b, req, userId) && req.amount.Some?
      && Balance(b, req.originAccountNumber.value).value >= req.amount.value)
    ensures r.Ok? ==> r.value == Move(b, FindAccountIndex(b.accounts, req.originAccountNumber.value).value,
      FindAccountIndex(b.accounts, req.destinationAccountNumber.value).value, req, today)
  {
    if req.originAccountNumber.None? then Err(Error(NullPointerException, NullArgument))
    else if req.originAccountNumber == req.destinationAccountNumber then Err(Error(IllegalArgumentException, SameAccount))
    else if !UserExists(b, userId) then Err(Error(IllegalArgumentException, UserNotFound))
    else match OwnedAccountIndex(b, req.originAccountNumber, userId)
      case None => Err(Error(IllegalArgumentException, OriginNotOwned))
      case Some(i) =>
        match OwnedAccountIndex(b, req.destinationAccountNumber, userId)
        case None => Err(Error(IllegalArgumentException, DestinationNotOwned))
        case Some(j) =>
          if req.amount.None? then Err(Error(NullPointerException, NullArgument))
          else if b.accounts[i].balance < req.amount.value then Err(Error(IllegalArgumentException, InsufficientFunds))
          else Ok(Move(b, i, j, req, today))
  }

  /** The postings of an internal transfer that passed every guard: the debit
      on the origin `i`, then the credit on the destination `j`, both of one owner. */
  function Move(b: Bank, i: nat, j: nat, req: TransferRequest, today: Date): (p: Posted)
    requires req.originAccountNumber.Some? && req.destinationAccountNumber.Some? && req.amount.Some?
    requires req.originAccountNumber != req.destinationAccountNumber
    requires i < |b.accounts| && b.accounts[i].number == req.originAccountNumber.value
    requires j < |b.accounts| && b.accounts[j].number == req.destinationAccountNumber.value
    requires FindAccountIndex(b.accounts, req.originAccountNumber.value) == Some(i)
    requires FindAccountIndex(b.accounts, req.destinationAccountNumber.value) == Some(j)
    requires b.accounts[i].owner == b.accounts[j].owner
    ensures Posts(b, p)
    ensures TwoMoved(b, p.bank, req.originAccountNumber.value, req.destinationAccountNumber.value, req.amount.value)
    ensures Total(p.bank.accounts) == Total(b.accounts)
    ensures forall u :: Total(OwnedBy(p.bank.accounts, u)) == Total(OwnedBy(b.accounts, u))
    ensures p.movements == [
      Movement(NextMovementId(b), req.originAccountNumber.value, today,
        DescriptionUnlessEmpty(req.description, "Transferencia a " + req.destinationAccountNumber.value), Expense, req.amount.value),
      Movement(NextMovementId(b) + 1, req.destinationAccountNumber.value, today,
        DescriptionUnlessEmpty(req.description, "Transferencia de " + req.originAccountNumber.value), Income, req.amount.value)]
  {
    var origin := req.originAccountNumber.value;
    var destination := req.destinationAccountNumber.value;
    var id := NextMovementId(b);
    var out := Movement(id, origin, today,
      DescriptionUnlessEmpty(req.description, "Transferencia a " + destination), Expense, req.amount.value);
    var into := Movement(id + 1, destination, today,
      DescriptionUnlessEmpty(req.description, "Transferencia de " + origin), Income, req.amount.value);
    PostTwo(b, i, origin, j, destination, req.amount.value, [out, into])
  }

  // ---------------------------------------------------------- external transfer

  datatype ExternalOutcome = ExternalOutcome(posted: Posted, response: ExternalTransferResponse)

  /** The description of the debit recorded on the origin. */
  function SentDescription(req: ExternalTransferRequest): string {
    "Transferencia enviada a " + FormatArg(req.destinationName) + " (Banco: " + FormatArg(req.destinationBank)
      + ", Cuenta: " + FormatArg(req.destinationAccountNumber) + "). " + Motive(req.description)
  }

  /** The description of the simulated credit, also recorded on the origin. */
  function ReceivedDescription(sender: User, req: ExternalTransferRequest): string {
    "Transferencia recibida de " + sender.firstName + " " + sender.lastName
      + " (Cuenta: " + FormatArg(req.originAccountNumber) + "). " + Motive(req.description)
  }

  /** Both descriptions fit the description column. */
  predicate DescriptionsFit(sender: User, req: ExternalTransferRequest) {
    FitsColumn(SentDescription(req), DescriptionLength) && FitsColumn(ReceivedDescription(sender, req), DescriptionLength)
  }

  /** The response: the fixed message, the origin's new balance, the DTO of the
      debit and the origin's movements, newest first (`findByAccountIdOrderByDateDesc`). */
  function Report(b: Bank, origin: AccountNumber, debit: Movement): ExternalTransferResponse
    requires Balance(b, origin).Some?
  {
    ExternalTransferResponse(
      "Transferencia externa realizada con exito.",
      Balance(b, origin).value,
      MapMovementToDto(b, debit),
      MapMovementDtos(b, SortNewestFirst(MovementsOn(b.movements, origin))))
  }

  /** The debit of origin `i` and its two movements, every guard having passed. */
  function Debit(b: Bank, i: nat, req: ExternalTransferRequest, sender: User, today: Date): (o: ExternalOutcome)
    requires req.originAccountNumber.Some? && req.amount.Some?
    requires i < |b.accounts| && b.accounts[i].number == req.originAccountNumber.value
    requires FindAccountIndex(b.accounts, req.originAccountNumber.value) == Some(i)
    ensures Posts(b, o.posted)
    ensures OnlyMoved(b, o.posted.bank, req.originAccountNumber.value, -req.amount.value)
    ensures o.posted.movements == [
      Movement(NextMovementId(b), req.originAccountNumber.value, today, SentDescription(req), Expense, req.amount.value),
      Movement(NextMovementId(b) + 1, req.originAccountNumber.value, today, ReceivedDescription(sender, req), Income, req.amount.value)]
    ensures Balance(o.posted.bank, req.originAccountNumber.value).Some?
    ensures o.response == Report(o.posted.bank, req.originAccountNumber.value, o.posted.movements[0])
  {
    var origin := req.originAccountNumber.value;
    var id := NextMovementId(b);
    var expense := Movement(id, origin, today, SentDescription(req), Expense, req.amount.value);
    var income := Movement(id + 1, origin, today, ReceivedDescription(sender, req), Income, req.amount.value);
    var p := PostOne(b, i, origin, -req.amount.value, [expense, income]);
    ExternalOutcome(p, Report(p.bank, origin, expense))
  }

  /** What an accepted withdrawal implies about the posting. */
  lemma WithdrawAccepted(b: Bank, req: MovementRequest, userId: UserId, today: Date)
    requires Withdraw(b, req, userId, today).Ok?
    ensures Posts(b, Withdraw(b, req, userId, today).value)
    ensures OnlyMoved(b, Withdraw(b, req, userId, today).value.bank, req.accountNumber.value, -req.amount.value)
  {
  }

  /** `processExternalTransfer`: guards run user, origin ownership, funds; the
      destination is neither looked up nor compared with the origin. A formatted
      description longer than its column makes the insert fail, and the whole
      transaction is rolled back. */
  function ExternalTransfer(b: Bank, req: ExternalTransferRequest, userId: UserId, today: Date): (r: Result<ExternalOutcome>)
    ensures !UserExists(b, userId) ==> r == Err(Error(IllegalArgumentException, UserNotFound))
    ensures (UserExists(b, userId) && !Owns(b, req.originAccountNumber, userId)) ==>
      (r == Err(Error(IllegalArgumentException, OriginNotOwned)))
    ensures (UserExists(b, userId) && Owns(b, req.originAccountNumber, userId) && req.amount.None?) ==>
      (r == Err(Error(NullPointerException, NullArgument)))
    ensures (UserExists(b, userId) && Owns(b, req.originAccountNumber, userId) && req.amount.Some?
      && Balance(b, req.originAccountNumber.value).value < req.amount.value) ==>
      (r == Err(Error(IllegalArgumentException, InsufficientFunds)))
    ensures (UserExists(b, userId) && Owns(b, req.originAccountNumber, userId) && req.amount.Some?
      && Balance(b, req.originAccountNumber.value).value >= req.amount.value
      && !DescriptionsFit(FindUser(b.users, userId).value, req)) ==>
      (r == Err(Error(DataIntegrityViolation, ValueTooLong)))
    ensures r.Ok? <==> (UserExists(b, userId) && Owns(b, req.originAccountNumber, userId) && req.amount.Some?
      && Balance(b, req.originAccountNumber.value).value >= req.amount.value
      && DescriptionsFit(FindUser(b.users, userId).value, req))
    ensures r.Ok? ==> r.value == Debit(b, FindAccountIndex(b.accounts, req.originAccountNumber.value).value,
      req, FindUser(b.users, userId).value, today)
  {
    if !UserExists(b, userId) then Err(Error(IllegalArgumentException, UserNotFound))
    else match OwnedAccountIndex(b, req.originAccountNumber, userId)
      case None => Err(Error(IllegalArgumentException, OriginNotOwned))
      case Some(i) =>
        if req.amount.None? then Err(Error(NullPointerException, NullArgument))
        else if b.accounts[i].balance < req.amount.value then Err(Error(IllegalArgumentException, InsufficientFunds))
        else if !DescriptionsFit(FindUser(b.users, userId).value, req) then Err(Error(DataIntegrityViolation, ValueTooLong))
        else Ok(Debit(b, i, req, FindUser(b.users, userId).value, today))
  }

  // ------------------------------------------------------------- properties

  /** The sent description prefixes the reason with the destination and "Motivo: ":
      a funded transfer whose reason has more than 247 characters is refused by the
      database, however short the other fields. */
  lemma {:induction false} LongReasonIsRefused(b: Bank, req: ExternalTransferRequest, userId: UserId, today: Date)
    requires UserExists(b, userId) && Owns(b, req.originAccountNumber, userId)
    requires req.amount.Some? && Balance(b, req.originAccountNumber.value).value >= req.amount.value
    requires req.description.Some? && |req.description.value| > 247
    ensures ExternalTransfer(b, req, userId, today) == Err(Error(DataIntegrityViolation, ValueTooLong))
  {
    assert |Motive(req.description)| > DescriptionLength;
    assert !FitsColumn(SentDescription(req), DescriptionLength);
  }

  /** A validated deposit (`@DecimalMin("0.01")` on the amount) keeps the books. */
  lemma {:induction false} DepositKeepsBooks(b: Bank, req: MovementRequest, userId: UserId, today: Date)
    requires Valid(b) && NonNegative(b)
    requires ValidMovementRequest(req)
    requires Deposit(b, req, userId, today).Ok?
    ensures KeepsBooks(b, Deposit(b, req, userId, today).value)
  {
    MovementRequestMeaning(req);
    OneKeepsBooks(b, Deposit(b, req, userId, today).value, req.accountNumber.value, req.amount.value);
  }

  /** The service alone does not keep balances non-negative: a deposit whose
      amount is more negative than the balance is accepted and overdraws. */
  lemma {:induction false} DepositCanOverdraw(b: Bank, req: MovementRequest, userId: UserId, today: Date)
    requires Deposit(b, req, userId, today).Ok?
    requires Balance(b, req.accountNumber.value).value + req.amount.value < 0
    ensures !NonNegative(Deposit(b, req, userId, today).value.bank)
  {
    var after := Deposit(b, req, userId, today).value.bank;
    var n := req.accountNumber.value;
    BalanceInFound(after.accounts, n);
    var i := FindAccountIndex(after.accounts, n).value;
    assert after.accounts[i].balance < 0;
  }

  /** A withdrawal keeps the books whatever its amount: the funds check alone
      keeps the balance non-negative. */
  lemma {:induction false} WithdrawKeepsBooks(b: Bank, req: MovementRequest, userId: UserId, today: Date)
    requires Valid(b) && NonNegative(b)
    requires Withdraw(b, req, userId, today).Ok?
    ensures KeepsBooks(b, Withdraw(b, req, userId, today).value)
  {
    OneKeepsBooks(b, Withdraw(b, req, userId, today).value, req.accountNumber.value, -req.amount.value);
  }

  /** A validated internal transfer keeps the books. */
  lemma {:induction false} TransferKeepsBooks(b: Bank, req: TransferRequest, userId: UserId, today: Date)
    requires Valid(b) && NonNegative(b)
    requires ValidTransferRequest(req)
    requires Transfer(b, req, userId, today).Ok?
    ensures KeepsBooks(b, Transfer(b, req, userId, today).value)
  {
    TransferRequestMeaning(req);
    TwoKeepsBooks(b, Transfer(b, req, userId, today).value,
                  req.originAccountNumber.value, req.destinationAccountNumber.value, req.amount.value);
  }

  /** Without validation a negative transfer amount passes the funds check and
      can overdraw the destination. */
  lemma {:induction false} TransferCanOverdraw(b: Bank, req: TransferRequest, userId: UserId, today: Date)
    requires Transfer(b, req, userId, today).Ok?
    requires Balance(b, req.destinationAccountNumber.value).value + req.amount.value < 0
    ensures !NonNegative(Transfer(b, req, userId, today).value.bank)
  {
    var after := Transfer(b, req, userId, today).value.bank;
    var n := req.destinationAccountNumber.value;
    BalanceInFound(after.accounts, n);
    var i := FindAccountIndex(after.accounts, n).value;
    assert after.accounts[i].balance < 0;
  }

  /** An external transfer keeps the store valid and without negative balances,
      but its movements do not account for the debit: both are recorded against
      the origin and cancel out, so the books reconcile only for a zero amount. */
  lemma {:induction false} ExternalTransferMisrecords(b: Bank, req: ExternalTransferRequest, userId: UserId, today: Date)
    requires Valid(b) && NonNegative(b)
    requires ExternalTransfer(b, req, userId, today).Ok?
    ensures var p := ExternalTransfer(b, req, userId, today).value.posted;
      && Valid(p.bank) && NonNegative(p.bank)
      && Balance(p.bank, req.originAccountNumber.value) == Some(Balance(b, req.originAccountNumber.value).value - req.amount.value)
      && Net(p.movements, req.originAccountNumber.value) == 0
      && (Reconciles(b, p) <==> req.amount.value == 0)
  {
    var i := FindAccountIndex(b.accounts, req.originAccountNumber.value).value;
    var sender := FindUser(b.users, userId).value;
    assert ExternalTransfer(b, req, userId, today).value == Debit(b, i, req, sender, today);
    DebitShape(b, i, req, sender, today);
    TwoOnOneMisrecords(b, Debit(b, i, req, sender, today).posted, req.originAccountNumber.value, req.amount.value);
  }

  /** The debit posting's shape: one balance moved, and an expense and an income of
      the amount, both on the origin. */
  lemma DebitShape(b: Bank, i: nat, req: ExternalTransferRequest, sender: User, today: Date)
    requires req.originAccountNumber.Some? && req.amount.Some?
    requires i < |b.accounts| && b.accounts[i].number == req.originAccountNumber.value
    requires FindAccountIndex(b.accounts, req.originAccountNumber.value) == Some(i)
    ensures var p := Debit(b, i, req, sender, today).posted;
      && Posts(b, p) && OnlyMoved(b, p.bank, req.originAccountNumber.value, -req.amount.value)
      && |p.movements| == 2
      && p.movements[0].account == req.originAccountNumber.value && p.movements[1].account == req.originAccountNumber.value
      && Signed(p.movements[0]) == -req.amount.value && Signed(p.movements[1]) == req.amount.value
  {
  }

  /** A recorded movement of the origin, in a valid store, is among the recent
      movements of the report, with the origin's number. */
  lemma InReport(b: Bank, origin: AccountNumber, debit: Movement, m: Movement)
    requires Valid(b) && Balance(b, origin).Some?
    requires m in b.movements && m.account == origin
    ensures MapMovementToDto(b, m) in Report(b, origin, debit).recentMovements
    ensures MapMovementToDto(b, m).accountNumber == origin && MapMovementToDto(b, m).accountId.Some?
  {
    var sorted := SortNewestFirst(MovementsOn(b.movements, origin));
    SortKeepsMembers(MovementsOn(b.movements, origin), m);
    var k :| 0 <= k < |sorted| && sorted[k] == m;
    assert Report(b, origin, debit).recentMovements[k] == MapMovementToDto(b, m);
    assert m.account in Numbers(b.accounts) by {
      var l :| 0 <= l < |b.movements| && b.movements[l] == m;
    }
  }

  /** After a successful external transfer from a valid store, the response
      reports the debited origin balance, and the recent movements hold both the
      debit and the simulated credit, newest first. */
  lemma {:induction false} ExternalTransferReport(b: Bank, req: ExternalTransferRequest, userId: UserId, today: Date)
    requires Valid(b)
    requires ExternalTransfer(b, req, userId, today).Ok?
    ensures var o := ExternalTransfer(b, req, userId, today).value;
      && o.response.newOriginAccountBalance == Balance(b, req.originAccountNumber.value).value - req.amount.value
      && o.response.lastOriginMovement in o.response.recentMovements
      && o.response.lastOriginMovement.kind == Expense
      && o.response.lastOriginMovement.accountNumber == req.originAccountNumber.value
      && MapMovementToDto(o.posted.bank, o.posted.movements[1]) in o.response.recentMovements
      && (forall k, l :: 0 <= k < l < |o.response.recentMovements| ==>
            o.response.recentMovements[k].date >= o.response.recentMovements[l].date)
  {
    var i := FindAccountIndex(b.accounts, req.originAccountNumber.value).value;
    var sender := FindUser(b.users, userId).value;
    assert ExternalTransfer(b, req, userId, today).value == Debit(b, i, req, sender, today);
    DebitReport(b, i, req, sender, today);
  }

  lemma DebitReport(b: Bank, i: nat, req: ExternalTransferRequest, sender: User, today: Date)
    requires Valid(b)
    requires req.originAccountNumber.Some? && req.amount.Some?
    requires i < |b.accounts| && b.accounts[i].number == req.originAccountNumber.value
    requires FindAccountIndex(b.accounts, req.originAccountNumber.value) == Some(i)
    ensures var o := Debit(b, i, req, sender, today);
      && o.response.newOriginAccountBalance == Balance(b, req.originAccountNumber.value).value - req.amount.value
      && o.response.lastOriginMovement in o.response.recentMovements
      && o.response.lastOriginMovement.kind == Expense
      && o.response.lastOriginMovement.accountNumber == req.originAccountNumber.value
      && MapMovementToDto(o.posted.bank, o.posted.movements[1]) in o.response.recentMovements
      && (forall k, l :: 0 <= k < l < |o.response.recentMovements| ==>
            o.response.recentMovements[k].date >= o.response.recentMovements[l].date)
  {
    var o := Debit(b, i, req, sender, today);
    BalanceOfFound(b, i);
    ReportOfTwo(b, o.posted, req.originAccountNumber.value);
  }

  /** The report after a posting of two movements on the origin: the balance
      it states, and both movements among the recent ones, newest first. */
  lemma ReportOfTwo(b: Bank, p: Posted, origin: AccountNumber)
    requires Valid(b) && Posts(b, p) && Balance(b, origin).Some?
    requires |p.movements| == 2 && p.movements[0].account == origin && p.movements[1].account == origin
    ensures Balance(p.bank, origin).Some?
    ensures var response := Report(p.bank, origin, p.movements[0]);
      && Some(response.newOriginAccountBalance) == Balance(p.bank, origin)
      && response.lastOriginMovement in response.recentMovements
      && response.lastOriginMovement.kind == p.movements[0].kind
      && response.lastOriginMovement.accountNumber == origin
      && MapMovementToDto(p.bank, p.movements[1]) in response.recentMovements
      && (forall k, l :: 0 <= k < l < |response.recentMovements| ==>
            response.recentMovements[k].date >= response.recentMovements[l].date)
  {
    PostsKeepsOwnership(b, p);
    FoundInNumbers(b, origin);
    PostsKeepsValid(b, p);
    var after := p.bank;
    var debit := p.movements[0];
    assert after.movements[|b.movements|] == debit;
    assert after.movements[|b.movements| + 1] == p.movements[1];
    InReport(after, origin, debit, debit);
    InReport(after, origin, debit, p.movements[1]);
  }

  /** An external transfer moves only the origin's balance, down by the amount. */
  lemma {:induction false} ExternalTransferDebitsOrigin(b: Bank, req: ExternalTransferRequest, userId: UserId, today: Date)
    requires ExternalTransfer(b, req, userId, today).Ok?
    ensures OnlyMoved(b, ExternalTransfer(b, req, userId, today).value.posted.bank, req.originAccountNumber.value, -req.amount.value)
  {
    var i := FindAccountIndex(b.accounts, req.originAccountNumber.value).value;
    var sender := FindUser(b.users, userId).value;
    assert ExternalTransfer(b, req, userId, today).value == Debit(b, i, req, sender, today);
    DebitMovesOrigin(b, i, req, sender, today);
  }

  lemma DebitMovesOrigin(b: Bank, i: nat, req: ExternalTransferRequest, sender: User, today: Date)
    requires req.originAccountNumber.Some? && req.amount.Some?
    requires i < |b.accounts| && b.accounts[i].number == req.originAccountNumber.value
    requires FindAccountIndex(b.accounts, req.originAccountNumber.value) == Some(i)
    ensures OnlyMoved(b, Debit(b, i, req, sender, today).posted.bank, req.originAccountNumber.value, -req.amount.value)
  {
  }
}
