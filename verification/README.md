# HyprBank core in Dafny

This project models the rules at the heart of the HyprBank online bank, a Spring Boot application that has two generations of services side by side.

- **Legacy services** use Spanish names: `TransaccionService`, `MovimientoService`, the legacy `AuditLoginEventListener` and the legacy `DashboardRestController`.
- **Newer services** use English names: `TransactionServiceImpl`, `MovementService`, `UserServiceImpl`, `RolAccess`, the newer `AuditLoginEventListener` and `DashboardRestController`, and `AdminMovementServiceImpl`.

The two generations have tables of their own (`usuarios`, `cuentas`, `movimientos` for the legacy entities; `users`, `accounts`, `movements` for the newer ones). The model runs both over one abstract store (`Bank.Bank`), so that `Generations` and `History.HistoriesAgree` can compare them on equal data. The store has three tables:

- users;
- accounts, each with a unique number, an owner and a balance;
- an append-only log of movements, each an income or an expense on an account.

Money is integer cents.

**The ledger** (`LegacyLedger`, `Ledger`) covers deposits, withdrawals, transfers between two accounts of one user, and "external" transfers.

- Each operation runs its guards in the source's order and returns the exception the source throws.
- The store is touched only when every guard passes; a refusal returns no store.
- The external transfers format their descriptions from the request. One longer than the 255-character description column is refused by the database and the transaction rolls back; the model returns that refusal after the guards.
- A success returns the new store and the appended movements. That is the `Posted` value, described by the `Posts` predicate.
- The model proves the following:
  - each operation changes only the balances it should, and by exactly the amount;
  - transfers keep the bank total and each owner's total;
  - the balances stay non-negative;
  - every balance moves by the net of the movements recorded against its account (`KeepsBooks`).
- The newer external transfer is the exception to the last point. It debits the origin but records both its movements against the origin, so its books reconcile only for a zero amount.
- `Generations` relates the two ledgers: for positive amounts, both accept the same deposits, withdrawals and internal transfers, and leave the same balances.

**The movement history** (`History`) is modelled in three steps.

1. It chooses one of four repository queries from the optional date range and kind.
2. It gathers the filtered movements of each of the user's accounts.
3. It sorts them newest first with a stable sort (`Chronology`) and maps each to a DTO.

The model proves what the history holds:

- exactly the logged movements on the user's accounts that pass the query;
- each of them once, when account numbers are unique;
- in newest-first order.

It also proves that both generations return the same movements.

**Request validation** (`Requests`) writes the Jakarta constraint annotations of each request DTO as a list of annotated fields. One lemma per DTO states what validity means, field by field.

**Registration** (`Registration`, `Password`):

- `save` checks the e-mail address, then the DPI (the national identity number), generates a password and stores the user with the default role.
- As written the store always fails: the default role is a new, unsaved `Role` row, and the many-to-many `roles` association does not cascade. `Registration.Save` models that; `Registration.SaveCorrected` stores the user with the existing ROLE_USER row, and the properties of a registered user are proved about it (see "## Findings").
- The password has one character of each of four classes and four more from the whole alphabet. It is then shuffled by swaps, both as a pure function and as the in-place array loop of the source.
- The model proves that the shuffle is a permutation. So the result has eight characters, all from the alphabet, with every class present.

**Sign-in, audit and display**:

- `Principal` covers the authorities a user has and the page `RolAccess` redirects to.
- `Audit` covers the client-address fallback chain and the access records both login listeners write.
- `Dashboard` covers the signed-in user's summary (total balance) and account list.
- `Admin` covers the administrator's listing of every movement.

## Model

Source paths are relative to the repository root.

| member | source | states |
|---|---|---|
| Common.KindName | src/main/java/com/hyprbank/online/bancavirtual/hyprbank/service/AdminMovementServiceImpl.java:50-58 | The enum names "INCOME" and "EXPENSE" each name exactly one kind |
| Bank.FindUser | src/main/java/com/hyprbank/online/bancavirtual/service/TransaccionService.java:109-110 | `findById` returns a user with that id, and returns nothing exactly when no row has it |
| Bank.FindUserByEmail | src/main/java/com/hyprbank/online/bancavirtual/hyprbank/repository/UserRepository.java:31 | `findByEmail` returns a user with that address, and returns nothing exactly when no row has it |
| Bank.FindAccount | src/main/java/com/hyprbank/online/bancavirtual/hyprbank/repository/AccountRepository.java:33 | `findByAccountNumber` returns an account row with that number, and returns nothing exactly when no row has it; the balance looked up by number is that row's |
| Bank.OwnedAccountIndex | src/main/java/com/hyprbank/online/bancavirtual/hyprbank/repository/AccountRepository.java:53 | `findByAccountNumberAndUser` finds a row exactly when the number names an account of that owner; a null number finds nothing |
| Bank.BalanceAfterUpdate | src/main/java/com/hyprbank/online/bancavirtual/service/TransaccionService.java:120 | Setting one row's balance changes the balance found under that number only, and no account number |
| Bank.PostOne | src/main/java/com/hyprbank/online/bancavirtual/hyprbank/service/TransactionServiceImpl.java:110-121 | Saving one account and its movements moves only that account's balance, by the given delta, and appends the movements with the next ids |
| Bank.PostTwo | src/main/java/com/hyprbank/online/bancavirtual/hyprbank/service/TransactionServiceImpl.java:193-221 | Saving two updated accounts moves the amount from one to the other; the bank total is kept, and so is the owner's total when one owner holds both |
| Bank.TwoUpdatesTotals | src/main/java/com/hyprbank/online/bancavirtual/service/TransaccionService.java:223-224 | Subtracting an amount from one row and adding it to another keeps the sum of all balances, and each owner's sum when both rows have one owner |
| Bank.AppendKeepsBalances | src/main/java/com/hyprbank/online/bancavirtual/service/TransaccionService.java:123-128 | Saving movements changes no balance |
| Bank.NonNegativeBalances | src/main/java/com/hyprbank/online/bancavirtual/hyprbank/model/Account.java:48-49 | When no row is negative, no balance looked up by number is negative |
| Bank.NonNegativeByNumber | src/main/java/com/hyprbank/online/bancavirtual/hyprbank/model/Account.java:45-49 | With unique account numbers, "no row is negative" and "no balance found by number is negative" are equivalent |
| Bank.OneReconciles | src/main/java/com/hyprbank/online/bancavirtual/service/TransaccionService.java:120-128 | A balance moved by the signed amount of the one movement recorded against it agrees with the log |
| Bank.TwoReconciles | src/main/java/com/hyprbank/online/bancavirtual/service/TransaccionService.java:223-250 | A transfer that records the debit on the origin and the credit on the destination agrees with the log |
| Bank.OneKeepsBooks | src/main/java/com/hyprbank/online/bancavirtual/service/TransaccionService.java:160-171 | A single-account posting that does not overdraw keeps the store valid, keeps it free of negative balances, and agrees with the log |
| Bank.TwoOnOneMisrecords | src/main/java/com/hyprbank/online/bancavirtual/hyprbank/service/TransactionServiceImpl.java:251-284 | Debiting an account while logging a debit and a credit both against it keeps the store sound and lowers its balance by the amount, but the logged net is zero, so the books reconcile only for a zero amount |
| Bank.TwoKeepsBooks | src/main/java/com/hyprbank/online/bancavirtual/service/TransaccionService.java:218-250 | A funded transfer between two accounts keeps the store valid and non-negative, and agrees with the log |
| Bank.TransferredKeepsBooks | src/main/java/com/hyprbank/online/bancavirtual/service/TransaccionService.java:302-342 | Any posting that is a funded transfer (debit logged first, then credit) keeps the books |
| Bank.MovementsOn | src/main/java/com/hyprbank/online/bancavirtual/hyprbank/repository/MovementRepository.java:31 | The movements of one account are exactly the logged movements whose account is that one |
| Bank.OwnedBy | src/main/java/com/hyprbank/online/bancavirtual/hyprbank/repository/AccountRepository.java:41 | `findByUser` lists exactly the accounts whose owner is the user |
| Bank.TotalAfterUpdate | src/main/java/com/hyprbank/online/bancavirtual/hyprbank/controller/DashboardRestController.java:81-89 | Replacing one account changes the sum of balances by exactly the difference of the two balances |
| Bank.OwnedTotalAfterUpdate | src/main/java/com/hyprbank/online/bancavirtual/hyprbank/controller/DashboardRestController.java:81-89 | The same holds for one owner's sum, when the replaced account keeps its owner |
| Bank.ValidAfterUpdate | src/main/java/com/hyprbank/online/bancavirtual/hyprbank/model/Account.java:45-61 | Changing a balance keeps unique numbers and resolvable owners |
| Bank.ValidAfterAppend | src/main/java/com/hyprbank/online/bancavirtual/hyprbank/model/Movement.java:46 | Appending movements with the next ids on existing accounts keeps the store valid |
| Bank.PostsKeepsOwnership | src/main/java/com/hyprbank/online/bancavirtual/hyprbank/model/Account.java:60-61 | A posting changes neither which users exist, nor who owns which account, nor which numbers resolve |
| Bank.PostsKeepsValid | src/main/java/com/hyprbank/online/bancavirtual/hyprbank/model/Movement.java:45-46 | A posting whose movements name existing accounts keeps the store valid |
| Chronology.Insert | src/main/java/com/hyprbank/online/bancavirtual/hyprbank/service/MovementService.java:89 | Inserting a movement into a newest-first list keeps it newest first and adds exactly that movement |
| Chronology.SortNewestFirst | src/main/java/com/hyprbank/online/bancavirtual/hyprbank/service/MovementService.java:89 | The sorted list is newest first and is a permutation of its input |
| Chronology.SortKeepsMembers | src/main/java/com/hyprbank/online/bancavirtual/service/MovimientoService.java:94 | Sorting neither drops nor invents a movement |
| Principal.Authorities | src/main/java/com/hyprbank/online/bancavirtual/hyprbank/model/User.java:95-100 | The stored roles when there are any, otherwise exactly ["ROLE_USER"]; never empty |
| Principal.Redirect | src/main/java/com/hyprbank/online/bancavirtual/hyprbank/config/RolAccess.java:20-34 | Admin page iff the first authority that is ROLE_ADMIN or ROLE_USER is ROLE_ADMIN; user page iff that first one is ROLE_USER; fallback page iff neither occurs |
| Requests.OneConstraint | src/main/java/com/hyprbank/online/bancavirtual/hyprbank/dto/MovementRequest.java:35-36 | A field with one annotation is valid exactly when that annotation holds |
| Requests.TwoConstraints | src/main/java/com/hyprbank/online/bancavirtual/hyprbank/dto/MovementRequest.java:38-40 | A field with two annotations is valid exactly when both hold |
| Requests.ThreeConstraints | src/main/java/com/hyprbank/online/bancavirtual/hyprbank/dto/RegistrationRequest.java:41-44 | A field with three annotations is valid exactly when all three hold |
| Requests.EveryField | src/main/java/com/hyprbank/online/bancavirtual/hyprbank/dto/TransferRequest.java:32-43 | A request is valid exactly when each of its fields is |
| Requests.MovementRequestMeaning | src/main/java/com/hyprbank/online/bancavirtual/hyprbank/dto/MovementRequest.java:35-48 | Valid iff the account number is not blank, the amount is present and at least one cent, and the description is null or at most 255 characters; the type is unconstrained |
| Requests.TransferRequestMeaning | src/main/java/com/hyprbank/online/bancavirtual/hyprbank/dto/TransferRequest.java:32-43 | Valid iff both numbers are not blank, the amount is at least one cent, and the description is at most 255 characters; equal numbers are allowed |
| Requests.MovimientoRequestMeaning | src/main/java/com/hyprbank/online/bancavirtual/dto/MovimientoRequest.java:35-48 | Valid iff the number is not blank, the amount is at least one cent, and the description is at most 255 characters |
| Requests.TransferenciaExternaRequestMeaning | src/main/java/com/hyprbank/online/bancavirtual/dto/TransferenciaExternaRequest.java:32-51 | Valid iff both numbers are not blank, the name and bank are not blank and at most 100 characters, the amount is at least one cent, and the description is at most 255 characters |
| Requests.RegistrationRequestMeaning | src/main/java/com/hyprbank/online/bancavirtual/hyprbank/dto/RegistrationRequest.java:33-70 | Valid iff every field meets its size, pattern, e-mail and past-date rules; a null birth date passes |
| Requests.IdentityFieldsMeaning | src/main/java/com/hyprbank/online/bancavirtual/hyprbank/dto/RegistrationRequest.java:33-50 | Names are 2 to 50 characters; the e-mail is well formed and at most 100 characters; the DPI is exactly 13 characters; none is blank |
| Requests.ContactFieldsMeaning | src/main/java/com/hyprbank/online/bancavirtual/hyprbank/dto/RegistrationRequest.java:52-70 | The NIT is 5 to 20 of [a-zA-Z0-9-]; the phone is four digits, a dash and four digits; the address is 10 to 255 characters; the birth date, if given, is past |
| Requests.DpiIsLengthOnly | src/main/java/com/hyprbank/online/bancavirtual/hyprbank/dto/RegistrationRequest.java:48-50 | Thirteen letters pass the DPI rule: only the length is checked |
| Requests.PhoneShape | src/main/java/com/hyprbank/online/bancavirtual/hyprbank/dto/RegistrationRequest.java:59-63 | The phone pattern accepts "5555-1234" and refuses a missing dash, a fifth final digit and a letter |
| LegacyLedger.MapMovimientoToDto | src/main/java/com/hyprbank/online/bancavirtual/service/TransaccionService.java:72-91 | The DTO copies the movement. It names its account when the reference resolves, and gives no account id and "Cuenta Desconocida" when it does not |
| LegacyLedger.MappedMovementsNameTheirAccount | src/main/java/com/hyprbank/online/bancavirtual/service/TransaccionService.java:72-91 | In a valid store the fallback never applies: every logged movement's DTO names its own account |
| LegacyLedger.Deposit | src/main/java/com/hyprbank/online/bancavirtual/service/TransaccionService.java:106-132 | Errors come in order: unknown user (RuntimeException), then account not owned, then null amount, then amount ≤ 0. Success holds iff none applies; it then raises only that balance by the amount and logs one income, described "Depósito" when the description is blank |
| LegacyLedger.Withdraw | src/main/java/com/hyprbank/online/bancavirtual/service/TransaccionService.java:146-177 | The same guard order, then insufficient funds. Success lowers only that balance by the amount, leaves it non-negative, and logs one expense ("Retiro" by default) |
| LegacyLedger.Transfer | src/main/java/com/hyprbank/online/bancavirtual/service/TransaccionService.java:195-251 | Guards in order: user, null origin number, same number, origin owned, destination owned, amount present and positive, funds. Success holds iff all pass, and is then the move below |
| LegacyLedger.Move | src/main/java/com/hyprbank/online/bancavirtual/service/TransaccionService.java:223-250 | Debits the origin and credits the destination by the amount; keeps the bank total and every owner's total; logs [expense on origin, income on destination] |
| LegacyLedger.Settle | src/main/java/com/hyprbank/online/bancavirtual/service/TransaccionService.java:309-356 | Moves the amount from the origin to the destination, keeping the total. Logs the debit on the origin and the credit on the destination with their descriptions. Reports the origin's new balance |
| LegacyLedger.ExternalTransfer | src/main/java/com/hyprbank/online/bancavirtual/service/TransaccionService.java:270-359 | Guards in order: user, origin owned, destination exists (any owner), different accounts, amount, funds; then a formatted description longer than the 255-character column is refused (DataIntegrityViolation). Success holds iff all pass, and is then the settlement above |
| LegacyLedger.ValidatedReasonCanOverflow | src/main/java/com/hyprbank/online/bancavirtual/service/TransaccionService.java:319-323 | A request that passes validation, with funds, whose reason has more than 247 characters is refused for the description's length |
| LegacyLedger.ExternalTransferMoves | src/main/java/com/hyprbank/online/bancavirtual/service/TransaccionService.java:309-328 | An accepted external transfer moves the amount from origin to destination and changes no other balance |
| LegacyLedger.DepositKeepsBooks | src/main/java/com/hyprbank/online/bancavirtual/service/TransaccionService.java:115-128 | A deposit keeps the store valid and non-negative, and agrees with the log |
| LegacyLedger.WithdrawKeepsBooks | src/main/java/com/hyprbank/online/bancavirtual/service/TransaccionService.java:160-176 | A withdrawal keeps the books |
| LegacyLedger.TransferKeepsBooks | src/main/java/com/hyprbank/online/bancavirtual/service/TransaccionService.java:213-250 | An internal transfer keeps the books |
| LegacyLedger.ExternalTransferKeepsBooks | src/main/java/com/hyprbank/online/bancavirtual/service/TransaccionService.java:297-342 | An external transfer keeps the books |
| LegacyLedger.DepositThenWithdraw | src/main/java/com/hyprbank/online/bancavirtual/service/TransaccionService.java:106-177 | Withdrawing what was just deposited into the same account is accepted and restores every balance, while the log keeps both movements |
| LegacyLedger.WithdrawAfterDeposit | src/main/java/com/hyprbank/online/bancavirtual/service/TransaccionService.java:160-163 | After a credit of an amount, the funds check lets a withdrawal of that amount through |
| LegacyLedger.ReportFacts | src/main/java/com/hyprbank/online/bancavirtual/service/TransaccionService.java:345-356 | The response states the origin balance. Its recent movements are all the origin's movements, newest first, and include the debit |
| LegacyLedger.RecentFacts | src/main/java/com/hyprbank/online/bancavirtual/service/TransaccionService.java:351-356 | DTOs of a newest-first list of the origin's logged movements are newest first, name the origin, and include the debit |
| LegacyLedger.RecordedDtosNameAccount | src/main/java/com/hyprbank/online/bancavirtual/service/TransaccionService.java:72-91 | DTOs of logged movements of one account all name that account |
| LegacyLedger.ExternalTransferReport | src/main/java/com/hyprbank/online/bancavirtual/service/TransaccionService.java:345-356 | After an accepted external transfer the response reports the debited balance, and the debit, an expense on the origin, is among the origin's recent movements |
| Generations.DescriptionRulesDiffer | src/main/java/com/hyprbank/online/bancavirtual/hyprbank/service/TransactionServiceImpl.java:118 | The newer rule (default only for null or empty) and the legacy rule (default for null or blank after trim) pick different descriptions exactly for a non-empty blank description that differs from the default |
| Ledger.MapMovementToDto | src/main/java/com/hyprbank/online/bancavirtual/hyprbank/service/TransactionServiceImpl.java:74-92 | The DTO copies the movement. It names its account when the reference resolves, otherwise "Unknown Account"; the balance is unset |
| Ledger.Deposit | src/main/java/com/hyprbank/online/bancavirtual/hyprbank/service/TransactionServiceImpl.java:104-124 | Errors in order: unknown user, then account not owned, then null amount. There is no positivity check. Success raises only that balance by the amount and logs one income |
| Ledger.Withdraw | src/main/java/com/hyprbank/online/bancavirtual/hyprbank/service/TransactionServiceImpl.java:136-161 | The same, then insufficient funds. Success lowers only that balance and logs one expense |
| Ledger.Transfer | src/main/java/com/hyprbank/online/bancavirtual/hyprbank/service/TransactionServiceImpl.java:173-226 | Guards in order: null origin, same number (before the user lookup), user, origin owned, destination owned, null amount, funds. Success holds iff all pass, and is then the move below |
| Ledger.Move | src/main/java/com/hyprbank/online/bancavirtual/hyprbank/service/TransactionServiceImpl.java:193-221 | Moves the amount from origin to destination; keeps the bank total and every owner's total; logs [expense on origin, income on destination] |
| Ledger.Debit | src/main/java/com/hyprbank/online/bancavirtual/hyprbank/service/TransactionServiceImpl.java:251-299 | Lowers only the origin's balance, then logs an expense and an income, both on the origin. Reports the origin's new balance |
| Ledger.ExternalTransfer | src/main/java/com/hyprbank/online/bancavirtual/hyprbank/service/TransactionServiceImpl.java:238-302 | Guards in order: user, origin owned, null amount, funds; then a formatted description longer than the 255-character column is refused. There is no destination lookup and no same-account check. Success holds iff all pass, and is then the debit above |
| Ledger.LongReasonIsRefused | src/main/java/com/hyprbank/online/bancavirtual/hyprbank/service/TransactionServiceImpl.java:260-264 | A funded external transfer whose reason has more than 247 characters is refused for the description's length |
| Ledger.DepositKeepsBooks | src/main/java/com/hyprbank/online/bancavirtual/hyprbank/dto/MovementRequest.java:38-40 | A deposit whose request passes validation keeps the books |
| Ledger.DepositCanOverdraw | src/main/java/com/hyprbank/online/bancavirtual/hyprbank/service/TransactionServiceImpl.java:104-124 | Without validation the service accepts a negative deposit that overdraws the account |
| Ledger.WithdrawKeepsBooks | src/main/java/com/hyprbank/online/bancavirtual/hyprbank/service/TransactionServiceImpl.java:141-156 | The funds check alone makes every accepted withdrawal keep the books |
| Ledger.TransferKeepsBooks | src/main/java/com/hyprbank/online/bancavirtual/hyprbank/dto/TransferRequest.java:38-40 | A transfer whose request passes validation keeps the books |
| Ledger.TransferCanOverdraw | src/main/java/com/hyprbank/online/bancavirtual/hyprbank/service/TransactionServiceImpl.java:188-194 | Without validation a negative transfer passes the funds check and can overdraw the destination |
| Ledger.ExternalTransferMisrecords | src/main/java/com/hyprbank/online/bancavirtual/hyprbank/service/TransactionServiceImpl.java:251-284 | An external transfer keeps the store valid and non-negative and lowers the origin by the amount. Its two movements net to zero, so the books reconcile iff the amount is zero |
| Ledger.InReport | src/main/java/com/hyprbank/online/bancavirtual/hyprbank/service/TransactionServiceImpl.java:288-299 | Every logged movement of the origin appears in the report's recent movements, naming the origin |
| Ledger.ExternalTransferReport | src/main/java/com/hyprbank/online/bancavirtual/hyprbank/service/TransactionServiceImpl.java:288-299 | The response reports the debited balance. Both new movements are among the recent ones, which are newest first; the last origin movement is the expense |
| Ledger.DebitReport | src/main/java/com/hyprbank/online/bancavirtual/hyprbank/service/TransactionServiceImpl.java:251-299 | The same facts for the debit posting itself |
| Ledger.ReportOfTwo | src/main/java/com/hyprbank/online/bancavirtual/hyprbank/service/TransactionServiceImpl.java:288-299 | After two movements are logged on the origin, the report states its balance and lists both, newest first |
| Ledger.ExternalTransferDebitsOrigin | src/main/java/com/hyprbank/online/bancavirtual/hyprbank/service/TransactionServiceImpl.java:251 | An external transfer changes only the origin's balance, down by the amount |
| Ledger.DebitMovesOrigin | src/main/java/com/hyprbank/online/bancavirtual/hyprbank/service/TransactionServiceImpl.java:251-253 | The debit posting changes only the origin's balance |
| Generations.DepositsAgree | src/main/java/com/hyprbank/online/bancavirtual/hyprbank/service/TransactionServiceImpl.java:104-124 | For a positive amount the legacy and newer deposits accept the same requests and leave the same balances |
| Generations.WithdrawalsAgree | src/main/java/com/hyprbank/online/bancavirtual/hyprbank/service/TransactionServiceImpl.java:136-161 | For a positive amount both withdrawals accept the same requests and leave the same balances |
| Generations.WithdrawalsAcceptAlike | src/main/java/com/hyprbank/online/bancavirtual/service/TransaccionService.java:146-163 | For a positive amount both withdrawals refuse exactly the same requests |
| Generations.TransfersAgree | src/main/java/com/hyprbank/online/bancavirtual/hyprbank/service/TransactionServiceImpl.java:173-226 | For a positive amount both internal transfers accept the same requests, though they check in different orders, and leave the same balances |
| History.ChooseFilter | src/main/java/com/hyprbank/online/bancavirtual/hyprbank/service/MovementService.java:75-87 | The chosen query keeps a movement iff it has the given kind (when one is given) and lies in the range (only when both ends are given) |
| History.Keep | src/main/java/com/hyprbank/online/bancavirtual/hyprbank/repository/MovementRepository.java:40-58 | A query returns exactly the movements it matches |
| History.AccountQuery | src/main/java/com/hyprbank/online/bancavirtual/hyprbank/repository/MovementRepository.java:31-58 | One per-account query returns that account's matching movements, newest first |
| History.Selected | src/main/java/com/hyprbank/online/bancavirtual/service/MovimientoService.java:80-92 | Reference definition: the logged movements on the given accounts that match, in log order |
| History.GatherMembers | src/main/java/com/hyprbank/online/bancavirtual/service/MovimientoService.java:80-92 | The flat-mapped per-account results hold exactly the logged movements on those accounts that match |
| History.SelectedOneMore | src/main/java/com/hyprbank/online/bancavirtual/hyprbank/service/MovementService.java:73-87 | Querying one more account adds exactly that account's matching movements |
| History.GatherSelects | src/main/java/com/hyprbank/online/bancavirtual/hyprbank/service/MovementService.java:73-87 | With unique account numbers, the gathered movements are the reference selection, each as often as in the log |
| History.OwnedByDistinct | src/main/java/com/hyprbank/online/bancavirtual/hyprbank/service/MovementService.java:70 | A user's account list inherits the table's unique numbers |
| History.CollectedMembers | src/main/java/com/hyprbank/online/bancavirtual/hyprbank/service/MovementService.java:73-90 | The history holds exactly the logged movements on the user's accounts that match the query |
| History.CollectedMeaning | src/main/java/com/hyprbank/online/bancavirtual/service/MovimientoService.java:80-95 | The history is newest first and has exactly those members; with unique numbers, each appears once |
| History.CollectedResolves | src/main/java/com/hyprbank/online/bancavirtual/service/MovimientoService.java:98-100 | Every collected movement's account resolves, so conversion always has an account |
| History.ToMovimientoDto | src/main/java/com/hyprbank/online/bancavirtual/service/MovimientoService.java:110-120 | The DTO loses nothing: the movement reads back from it, and it carries the account's id |
| History.LegacyHistory | src/main/java/com/hyprbank/online/bancavirtual/service/MovimientoService.java:65-101 | An unknown user fails with RuntimeException; a user without accounts gets the empty list |
| History.LegacyHistoryMeaning | src/main/java/com/hyprbank/online/bancavirtual/service/MovimientoService.java:65-101 | For an existing user the list is newest first. Each entry describes a logged movement on the user's accounts that meets every given criterion; every such movement is described; with unique numbers the count is exact |
| History.DescribesCollected | src/main/java/com/hyprbank/online/bancavirtual/service/MovimientoService.java:98-100 | A DTO list that describes the collected movements one for one inherits their order and membership |
| History.ToMovementDto | src/main/java/com/hyprbank/online/bancavirtual/hyprbank/service/MovementService.java:105-115 | The DTO loses nothing of the movement, carries the account id, and leaves the balance unset |
| History.History | src/main/java/com/hyprbank/online/bancavirtual/hyprbank/service/MovementService.java:64-96 | An unknown user fails with IllegalArgumentException, not RuntimeException |
| History.HistoriesAgree | src/main/java/com/hyprbank/online/bancavirtual/hyprbank/service/MovementService.java:64-96 | Both generations fail together and otherwise describe the same movements in the same order; the legacy early return changes nothing |
| Password.PickFromClasses | src/main/java/com/hyprbank/online/bancavirtual/hyprbank/service/UserServiceImpl.java:65-73 | When the alphabet is the four classes end to end, the first four picks are one of each class and all eight are from the alphabet |
| Password.PickedClasses | src/main/java/com/hyprbank/online/bancavirtual/hyprbank/service/UserServiceImpl.java:34-73 | With the source's classes: a lower-case letter, an upper-case letter, a digit and a special character, then four from the alphabet |
| Password.SwapByAssignments | src/main/java/com/hyprbank/online/bancavirtual/hyprbank/service/UserServiceImpl.java:78-80 | The three assignments of the loop body exchange the two positions |
| Password.SwapPermutes | src/main/java/com/hyprbank/online/bancavirtual/hyprbank/service/UserServiceImpl.java:77-80 | A swap keeps every character, each as often |
| Password.ShuffledPermutes | src/main/java/com/hyprbank/online/bancavirtual/hyprbank/service/UserServiceImpl.java:76-81 | Any number of turns of the shuffle is a permutation |
| Password.PermutationKeepsClasses | src/main/java/com/hyprbank/online/bancavirtual/hyprbank/service/UserServiceImpl.java:75-81 | A permutation keeps every class the string has |
| Password.ShuffledClasses | src/main/java/com/hyprbank/online/bancavirtual/hyprbank/service/UserServiceImpl.java:61-84 | The shuffled password has 8 characters, all from the alphabet, with every class present |
| Password.ShuffleInPlace | src/main/java/com/hyprbank/online/bancavirtual/hyprbank/service/UserServiceImpl.java:76-81 | The array loop computes the functional shuffle and permutes the buffer |
| Password.GeneratePassword | src/main/java/com/hyprbank/online/bancavirtual/hyprbank/service/UserServiceImpl.java:61-84 | The result is a permutation of the picked characters: 8 characters, all from the alphabet, with one of every class wherever the shuffle put them |
| Registration.FindUserByDpi | src/main/java/com/hyprbank/online/bancavirtual/hyprbank/service/UserServiceImpl.java:101 | Finds a user with that DPI, and finds nothing exactly when none has it |
| Registration.FreshUserId | src/main/java/com/hyprbank/online/bancavirtual/hyprbank/service/UserServiceImpl.java:123 | The id the insert generates is larger than every existing id |
| Registration.Save | src/main/java/com/hyprbank/online/bancavirtual/hyprbank/service/UserServiceImpl.java:95-127 | As written: a taken e-mail is refused first, then a taken DPI, then a missing non-nullable value; every other request fails on the unsaved default role at line 120, so no call stores anything |
| Registration.SaveCorrected | src/main/java/com/hyprbank/online/bancavirtual/hyprbank/service/UserServiceImpl.java:95-127 | As intended: the same refusals in the same order. Success holds iff none applies; it appends exactly one user with the encoded generated password and the default role, and returns the address and the plain password |
| Registration.RegistrationAlwaysFails | src/main/java/com/hyprbank/online/bancavirtual/hyprbank/service/UserServiceImpl.java:120-123 | The written `save` never succeeds; it fails for the transient role exactly when the intended one stores the user, and otherwise refuses alike |
| Registration.LoadUserByUsername | src/main/java/com/hyprbank/online/bancavirtual/hyprbank/service/UserServiceImpl.java:138-141 | UsernameNotFoundException iff no user has the address; otherwise a user with that address |
| Registration.UsernameFindsUser | src/main/java/com/hyprbank/online/bancavirtual/hyprbank/model/User.java:119-121 | With unique addresses, every user is found by their username |
| Registration.AddingUserKeepsValid | src/main/java/com/hyprbank/online/bancavirtual/hyprbank/model/User.java:49-58 | A row with an unused id, address and DPI keeps the unique columns unique |
| Registration.NoAccountsUnderUnusedId | src/main/java/com/hyprbank/online/bancavirtual/hyprbank/model/Account.java:60-61 | In a valid store no account belongs to an id nobody has |
| Registration.RegistrationKeepsValid | src/main/java/com/hyprbank/online/bancavirtual/hyprbank/service/UserServiceImpl.java:97-123 | The intended registration keeps the table invariants |
| Registration.SaveAccepted | src/main/java/com/hyprbank/online/bancavirtual/hyprbank/service/UserServiceImpl.java:109-123 | The row the intended registration stores has a fresh id, an unused address and DPI, the default role, and the request's address |
| Registration.NewRowSignsIn | src/main/java/com/hyprbank/online/bancavirtual/hyprbank/model/User.java:95-161 | Such a row signs in with its address, has exactly ROLE_USER, goes to the user dashboard, owns no account, and is never locked out |
| Registration.RegisteredUser | src/main/java/com/hyprbank/online/bancavirtual/hyprbank/service/UserServiceImpl.java:109-126 | A user registered by the intended `save` signs in with their address, goes to the user dashboard, owns no account, and is never locked out |
| Registration.RegisteredPassword | src/main/java/com/hyprbank/online/bancavirtual/hyprbank/service/UserServiceImpl.java:105-126 | For a user registered by the intended `save`, the password shown is the one stored, encoded, and has 8 characters with every class |
| Dashboard.FullName | src/main/java/com/hyprbank/online/bancavirtual/hyprbank/controller/DashboardRestController.java:93 | The first name, one space, then the last name |
| Dashboard.ReduceIsTotal | src/main/java/com/hyprbank/online/bancavirtual/hyprbank/controller/DashboardRestController.java:85-88 | The reduce from zero adds exactly the balances |
| Dashboard.UserDetails | src/main/java/com/hyprbank/online/bancavirtual/hyprbank/controller/DashboardRestController.java:66-100 | Not found iff no user has the address. Otherwise the summary names that user, and its total is the sum of their balances, zero without accounts |
| Dashboard.ToAccountDto | src/main/java/com/hyprbank/online/bancavirtual/hyprbank/controller/DashboardRestController.java:125-147 | The account's columns, with the owner's id and full name, or no id and "N/A" when the owner does not resolve |
| Dashboard.ToCuentaDto | src/main/java/com/hyprbank/online/bancavirtual/controller/DashboardRestController.java:125-147 | The same rule for the legacy CuentaDTO |
| Dashboard.UserAccounts | src/main/java/com/hyprbank/online/bancavirtual/hyprbank/controller/DashboardRestController.java:110-151 | Not found iff no user has the address; otherwise one DTO per account of the user, in order |
| Dashboard.UserCuentas | src/main/java/com/hyprbank/online/bancavirtual/controller/DashboardRestController.java:110-151 | The same for the legacy list |
| Dashboard.AccountsMatchSummary | src/main/java/com/hyprbank/online/bancavirtual/hyprbank/controller/DashboardRestController.java:138-144 | In a valid store each listed account names the summary's user, by id and full name |
| Dashboard.TransferKeepsDashboardTotal | src/main/java/com/hyprbank/online/bancavirtual/hyprbank/controller/DashboardRestController.java:81-89 | An internal transfer leaves every user's summary, total included, as it was |
| Admin.ToAdminDto | src/main/java/com/hyprbank/online/bancavirtual/hyprbank/service/AdminMovementServiceImpl.java:32-58 | Copies the movement with the kind's enum name. The account number, or "N/A"; the holder's full name, or "Desconocido" when there is no account or no holder |
| Admin.AllBankMovements | src/main/java/com/hyprbank/online/bancavirtual/hyprbank/service/AdminMovementServiceImpl.java:28-60 | One DTO per logged movement, in log order |
| Admin.KindOfName | src/main/java/com/hyprbank/online/bancavirtual/hyprbank/service/AdminMovementServiceImpl.java:50-58 | Reads a kind back from its enum name, and nothing from other text |
| Admin.MovementOfAdminDto | src/main/java/com/hyprbank/online/bancavirtual/hyprbank/service/AdminMovementServiceImpl.java:50-58 | Reads a movement back from its listing row |
| Admin.AdminDtoRoundTrip | src/main/java/com/hyprbank/online/bancavirtual/hyprbank/service/AdminMovementServiceImpl.java:36-58 | A movement whose account resolves reads back unchanged from its row |
| Admin.AdminListingRecoversLog | src/main/java/com/hyprbank/online/bancavirtual/hyprbank/service/AdminMovementServiceImpl.java:28-60 | In a valid store no row falls back to a default, and every movement reads back from its row with its holder's name |
| Admin.ResolvesInValid | src/main/java/com/hyprbank/online/bancavirtual/hyprbank/model/Movement.java:45-46 | In a valid store a logged account number and its owner both resolve |
| Audit.ClientIp | src/main/java/com/hyprbank/online/bancavirtual/hyprbank/config/AuditLoginEventListener.java:113-131 | The no-context marker without a request. Otherwise the first usable of the three headers, else the remote address unfiltered, else "UNKNOWN" |
| Audit.FirstUsable | src/main/java/com/hyprbank/online/bancavirtual/hyprbank/config/AuditLoginEventListener.java:117-126 | Reference definition: the first usable header when there is one, otherwise the last resort as it is |
| Audit.SaveAccess | src/main/java/com/hyprbank/online/bancavirtual/hyprbank/model/UserAccess.java:39-50 | A save appends exactly the row. It is refused when the user column is required and the row has no user, and when the address is longer than the 45-character column |
| Audit.OnSuccess | src/main/java/com/hyprbank/online/bancavirtual/hyprbank/config/AuditLoginEventListener.java:56-72 | Fails iff the address is unknown or the client address is longer than its column; otherwise appends exactly one LOGIN_SUCCESS row for that user |
| Audit.OnFailure | src/main/java/com/hyprbank/online/bancavirtual/hyprbank/config/AuditLoginEventListener.java:82-104 | An unknown address writes nothing. A known one appends exactly one LOGIN_FAILED row for that user, and fails iff the client address is longer than its column |
| Audit.LegacyOnSuccess | src/main/java/com/hyprbank/online/bancavirtual/config/AuditLoginEventListener.java:56-76 | Fails iff the address is unknown or the client address is longer than its column; otherwise appends one LOGIN_EXITOSO row |
| Audit.LegacyOnFailure | src/main/java/com/hyprbank/online/bancavirtual/config/AuditLoginEventListener.java:85-111 | As written, the save succeeds iff the address is known and the client address fits its column; an unknown address fails on the null user |
| Audit.LegacyOnFailureCorrected | src/main/java/com/hyprbank/online/bancavirtual/config/AuditLoginEventListener.java:85-111 | Every failed login whose client address fits its column appends one LOGIN_FALLIDO row, attached to the user iff the address is known; a longer address is refused |
| Audit.LegacyFailureOfUnknownIsLost | src/main/java/com/hyprbank/online/bancavirtual/model/AccesoUsuario.java:34-35 | As written, a failed login with an unknown address fails on the non-nullable user column |
| Audit.LegacyFailureCounterexample | src/main/java/com/hyprbank/online/bancavirtual/config/AuditLoginEventListener.java:91-110 | With no users, a failed login as "a@b.c" raises as written; the corrected handler records it |
| Audit.LongForwardedChainIsRefused | src/main/java/com/hyprbank/online/bancavirtual/config/AuditLoginEventListener.java:126 | An X-Forwarded-For chain longer than 45 characters is stored unsplit, so every listener's insert for a known user is refused |

## Left out

- Money is integer cents: requests are assumed to carry whole cents. The amounts have only `@DecimalMin("0.01")` and no `@Digits`, so an amount such as 10.005 passes validation. The columns' `precision = 19, scale = 2` rounding of stored values and the bound on their size are not modelled.
- HTTP controllers are not modelled: status codes, response bodies and the security filter chain. Only the computations of the two dashboard controllers are kept.
- Report generation (JasperReports and PDF export), logging and `System.out` are foreign calls and output, so they are not modelled.
- The clock, `SecureRandom` and BCrypt become parameters:
  - `LocalDate.now()` / `LocalDateTime.now()` are the `today` / `now` parameters;
  - the results of `SecureRandom.nextInt` are the `Password.Draws` fields;
  - BCrypt's `encode` is the `encode` function parameter.
- `@Email` checking is the `isEmail` parameter, because the validation provider's syntax check is not part of this model.
- Persistence is modelled as three in-memory tables with keys. `@Transactional` atomicity is modelled by returning no store on any refusal, including the database's refusal of an over-long value.
- The legacy history, dashboard and listeners read the `usuarios`, `cuentas` and `movimientos` tables, the newer ones `users`, `accounts` and `movements`. The model reads one `Bank.users`, `Bank.accounts` and `Bank.movements` for both.
- LegacyLedger.Deposit, LegacyLedger.Withdraw, Ledger.Deposit, Ledger.Withdraw, Ledger.Transfer: the 255-character description column is not checked. A request that passes its DTO's `@Size(max = 255)` and the defaults built from a 20-character account number always fit; only an unvalidated call with a longer description would be refused.
- LegacyLedger.Transfer: the 255-character description column is not checked either. That a validated request fits assumes `TransferenciaRequest` carries the same `@Size(max = 255)` on its description as `MovimientoRequest`; its declaration is not part of this model, so a longer description that the database would refuse is accepted here.
- Dashboard.UserDetails: the summary carries the user's id, which `DashboardUserDTO` does not. It is there so the contract can say whose accounts were summed.
- Dashboard.UserAccounts: `user.getAccounts()` is a JPA collection without `@OrderBy`, so its order is unspecified. The model lists the accounts in table order, as does Dashboard.UserCuentas.
- Admin.AllBankMovements: `findAll` has no specified order. The model uses log order.
- Requests.OneConstraint: `@Size` counts UTF-16 code units, while a Dafny string counts characters, so text outside the Basic Multilingual Plane is counted differently.
- History.AccountQuery: the database's order among movements of equal date is unspecified. The model uses the stable order of the log.
- Registration.FindUserByDpi: `findByDpi` is called by `save` but not declared in the repository interface shown. It is modelled as the derived query its name implies.
- Registration.FreshUserId: the identity column's value is only required to exceed every existing id. The database's own sequence is not modelled.
- Registration.Save: a missing value for a non-nullable column is modelled as one `DataIntegrityViolation`. Which column the database names first is not modelled.
- `listUsers` (a plain `findAll`) is not modelled, nor are the thin services `UsuarioServiceImpl`, `AccountServiceImpl` and `AdminDashboardServiceImpl`.
- Methods that are only declared, such as `performAdminDeposit`, `updateUser` and `changeUserPassword`, are not modelled: they have no implementation.
- The legacy internal-transfer request DTO (`TransferenciaRequest`) is not part of this model. Its fields are those the service reads; its declaration is not available, so its constraints are unknown.
- The newer external-transfer request DTO is not part of this model either. Its fields are those the service reads.
- Audit.SameLetterIgnoringCase: `equalsIgnoreCase` is modelled only for the letters of "unknown", the one string it is used with.
- The access rows keep the user, time, type and address. Columns that are only logged are left out.

## Findings

| source | as written | input that shows it | evidently intended | confidence | as-written member | corrected member |
|---|---|---|---|---|---|---|
| src/main/java/com/hyprbank/online/bancavirtual/config/AuditLoginEventListener.java:91-110 | A failed login with an unknown e-mail builds an `AccesoUsuario` with a null `usuario` and saves it. The `usuario` join column is declared `nullable = false` (`src/main/java/com/hyprbank/online/bancavirtual/model/AccesoUsuario.java:35`), so the insert is refused and nothing is recorded | No users; a failed login as "a@b.c" | Every failed attempt leaves a LOGIN_FALLIDO row, without a user when the address is unknown, as the handler's comments say. The newer `UserAccess` makes its column nullable for this | not executed | Audit.LegacyOnFailure, Audit.LegacyFailureOfUnknownIsLost, Audit.LegacyFailureCounterexample | Audit.LegacyOnFailureCorrected |
| src/main/java/com/hyprbank/online/bancavirtual/hyprbank/service/UserServiceImpl.java:120 | `save` gives the new user `new Role(null, "ROLE_USER")`, a role row that was never saved. `User.roles` (`src/main/java/com/hyprbank/online/bancavirtual/hyprbank/model/User.java:77-83`) is a many-to-many association without cascading, so flushing the join row meets a transient `Role` (Hibernate's TransientObjectException, reported as an InvalidDataAccessApiUsageException), the save rolls back and nothing is stored | Any request with an unused e-mail and DPI and every column filled | The user is stored with the existing ROLE_USER row (looked up, not built), so registration succeeds | not executed | Registration.Save, Registration.RegistrationAlwaysFails | Registration.SaveCorrected |
