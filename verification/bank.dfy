/** The persistent state both generations of services work on: the user, account
    and movement tables. Repositories become lookups over these tables; an entity
    reference (movement to account, account to owner) is the key of the row it
    points at, and a key that resolves to no row plays the role of a null reference. */
module Bank {
  import opened Common

  type UserId = nat
  type AccountNumber = string

  /** A user row. `roles` is the role names of the many-to-many relation, which may be null. */
  datatype User = User(
    id: UserId,
    firstName: string,
    lastName: string,
    email: string,
    password: string,
    dpi: string,
    nit: string,
    phoneNumber: string,
    address: string,
    birthDate: Date,
    roles: Option<seq<string>>)

  /** An account row; its number is unique across the table. */
  datatype Account = Account(
    id: nat,
    number: AccountNumber,
    accountType: string,
    status: string,
    creationDate: Date,
    owner: UserId,
    balance: Cents)

  /** A movement row, attached to the account with number `account`. */
  datatype Movement = Movement(
    id: nat,
    account: AccountNumber,
    date: Date,
    description: string,
    kind: Kind,
    amount: Cents)

  /** The declared length of the movement description column in both generations. */
  const DescriptionLength: nat := 255

  datatype Bank = Bank(users: seq<User>, accounts: seq<Account>, movements: seq<Movement>)

  function UserIds(users: seq<User>): (r: seq<UserId>)
    ensures |r| == |users|
    ensures forall i :: 0 <= i < |users| ==> r[i] == users[i].id
  {
    seq(|users|, i requires 0 <= i < |users| => users[i].id)
  }

  function Emails(users: seq<User>): (r: seq<string>)
    ensures |r| == |users|
    ensures forall i :: 0 <= i < |users| ==> r[i] == users[i].email
  {
    seq(|users|, i requires 0 <= i < |users| => users[i].email)
  }

  function Dpis(users: seq<User>): (r: seq<string>)
    ensures |r| == |users|
    ensures forall i :: 0 <= i < |users| ==> r[i] == users[i].dpi
  {
    seq(|users|, i requires 0 <= i < |users| => users[i].dpi)
  }

  function Numbers(accounts: seq<Account>): (r: seq<AccountNumber>)
    ensures |r| == |accounts|
    ensures forall i :: 0 <= i < |accounts| ==> r[i] == accounts[i].number
  {
    seq(|accounts|, i requires 0 <= i < |accounts| => accounts[i].number)
  }

  /** `findById` on the user table. */
  function FindUser(users: seq<User>, id: UserId): (r: Option<User>)
    ensures r.Some? ==> r.value in users && r.value.id == id
    ensures r.None? <==> forall i :: 0 <= i < |users| ==> users[i].id != id
  {
    match IndexOf(UserIds(users), id)
    case None => None
    case Some(i) => Some(users[i])
  }

  /** `findByEmail` on the user table. */
  function FindUserByEmail(users: seq<User>, email: string): (r: Option<User>)
    ensures r.Some? ==> r.value in users && r.value.email == email
    ensures r.None? <==> forall i :: 0 <= i < |users| ==> users[i].email != email
  {
    match IndexOf(Emails(users), email)
    case None => None
    case Some(i) => Some(users[i])
  }

  /** Position of the account with the given number in the account table. */
  function FindAccountIndex(accounts: seq<Account>, number: AccountNumber): (r: Option<nat>)
    ensures r.Some? ==> r.value < |accounts| && accounts[r.value].number == number
    ensures r.None? <==> forall i :: 0 <= i < |accounts| ==> accounts[i].number != number
  {
    IndexOf(Numbers(accounts), number)
  }

  /** `findByAccountNumber`. */
  function FindAccount(b: Bank, number: AccountNumber): (r: Option<Account>)
    ensures r.Some? ==> r.value in b.accounts && r.value.number == number
    ensures r.None? <==> forall i :: 0 <= i < |b.accounts| ==> b.accounts[i].number != number
    ensures Balance(b, number) == if r.Some? then Some(r.value.balance) else None
  {
    BalanceInFound(b.accounts, number);
    match FindAccountIndex(b.accounts, number)
    case None => None
    case Some(i) => Some(b.accounts[i])
  }

  /** The balance of the account with that number, if there is one. */
  function Balance(b: Bank, number: AccountNumber): Option<Cents> {
    BalanceIn(b.accounts, number)
  }

  /** The balance of the first row with that number. */
  function BalanceIn(accounts: seq<Account>, number: AccountNumber): Option<Cents> {
    if |accounts| == 0 then None
    else if accounts[0].number == number then Some(accounts[0].balance)
    else BalanceIn(accounts[1..], number)
  }

  /** The balance is that of the account `findByAccountNumber` finds. */
  lemma {:induction false} BalanceInFound(accounts: seq<Account>, number: AccountNumber)
    ensures BalanceIn(accounts, number) ==
      match FindAccountIndex(accounts, number)
      case None => None
      case Some(i) => Some(accounts[i].balance)
  {
    if |accounts| > 0 && accounts[0].number != number {
      BalanceInFound(accounts[1..], number);
      assert Numbers(accounts) == [accounts[0].number] + Numbers(accounts[1..]);
    }
  }

  /** The user with that id exists. */
  predicate UserExists(b: Bank, id: UserId) {
    FindUser(b.users, id).Some?
  }

  /** The (nullable) account number names an account of `owner`. */
  predicate Owns(b: Bank, number: Option<AccountNumber>, owner: UserId) {
    number.Some? && FindAccount(b, number.value).Some? && FindAccount(b, number.value).value.owner == owner
  }

  /** `findByAccountNumberAndUser`: the account with that number, provided it is
      owned by the user. A null number matches no row. */
  function OwnedAccountIndex(b: Bank, number: Option<AccountNumber>, owner: UserId): (r: Option<nat>)
    ensures r.Some? <==> Owns(b, number, owner)
    ensures r.Some? ==> number.Some? && r.value < |b.accounts|
    ensures r.Some? ==> b.accounts[r.value].number == number.value && b.accounts[r.value].owner == owner
    ensures r.Some? ==> FindAccountIndex(b.accounts, number.value) == r
  {
    if number.None? then None
    else
      match FindAccountIndex(b.accounts, number.value)
      case None => None
      case Some(i) => if b.accounts[i].owner == owner then Some(i) else None
  }

  /** The store with the balance of the account at position `i` set to `v`. */
  function WithBalance(b: Bank, i: nat, v: Cents): (r: Bank)
    requires i < |b.accounts|
    ensures r.users == b.users && r.movements == b.movements
    ensures |r.accounts| == |b.accounts|
  {
    b.(accounts := b.accounts[i := b.accounts[i].(balance := v)])
  }

  /** The store with `ms` appended to the movement table. */
  function Append(b: Bank, ms: seq<Movement>): Bank {
    b.(movements := b.movements + ms)
  }

  /** Movement ids are generated in insertion order. */
  function NextMovementId(b: Bank): nat {
    |b.movements| + 1
  }

  /** The balance found by number is the balance of the row the lookup finds. */
  lemma BalanceOfFound(b: Bank, i: nat)
    requires i < |b.accounts|
    requires FindAccountIndex(b.accounts, b.accounts[i].number) == Some(i)
    ensures Balance(b, b.accounts[i].number) == Some(b.accounts[i].balance)
  {
    BalanceInFound(b.accounts, b.accounts[i].number);
  }

  /** Setting one balance moves only that account's balance, and only to `v`. */
  lemma BalanceAfterUpdateAt(b: Bank, i: nat, v: Cents, n: AccountNumber)
    requires i < |b.accounts|
    requires FindAccountIndex(b.accounts, b.accounts[i].number) == Some(i)
    ensures Balance(WithBalance(b, i, v), n) == if n == b.accounts[i].number then Some(v) else Balance(b, n)
  {
    var b' := WithBalance(b, i, v);
    assert Numbers(b'.accounts) == Numbers(b.accounts);
    assert FindAccountIndex(b'.accounts, n) == FindAccountIndex(b.accounts, n);
    BalanceInFound(b'.accounts, n);
    BalanceInFound(b.accounts, n);
  }

  /** The same, for every account number at once. */
  lemma BalanceAfterUpdate(b: Bank, i: nat, v: Cents)
    requires i < |b.accounts|
    requires FindAccountIndex(b.accounts, b.accounts[i].number) == Some(i)
    ensures Balance(WithBalance(b, i, v), b.accounts[i].number) == Some(v)
    ensures forall n :: n != b.accounts[i].number ==> Balance(WithBalance(b, i, v), n) == Balance(b, n)
    ensures Numbers(WithBalance(b, i, v).accounts) == Numbers(b.accounts)
  {
    BalanceAfterUpdateAt(b, i, v, b.accounts[i].number);
    forall n | n != b.accounts[i].number
      ensures Balance(WithBalance(b, i, v), n) == Balance(b, n)
    {
      BalanceAfterUpdateAt(b, i, v, n);
    }
    assert Numbers(WithBalance(b, i, v).accounts) == Numbers(b.accounts);
  }

  /** What a successful ledger operation leaves behind: the new store and the
      movements it appended, in insertion order. */
  datatype Posted = Posted(bank: Bank, movements: seq<Movement>)

  /** Two account tables hold the same rows except, possibly, for their balances. */
  predicate SameRowsButBalances(before: seq<Account>, after: seq<Account>) {
    |after| == |before| &&
    forall i :: 0 <= i < |before| ==> after[i] == before[i].(balance := after[i].balance)
  }

  /** `p` arises from `b` by moving balances and appending `p.movements` with the
      next generated ids: users, the other account columns and the earlier
      movements are untouched. */
  predicate Posts(b: Bank, p: Posted) {
    && p.bank.users == b.users
    && SameRowsButBalances(b.accounts, p.bank.accounts)
    && p.bank.movements == b.movements + p.movements
    && (forall k :: 0 <= k < |p.movements| ==> p.movements[k].id == NextMovementId(b) + k)
  }

  lemma WithBalanceKeepsRows(b: Bank, i: nat, v: Cents)
    requires i < |b.accounts|
    ensures SameRowsButBalances(b.accounts, WithBalance(b, i, v).accounts)
  {
  }

  /** Rows that match up to balances have the same numbers, so the same lookups. */
  lemma SameRowsSameNumbers(before: seq<Account>, after: seq<Account>)
    requires SameRowsButBalances(before, after)
    ensures Numbers(after) == Numbers(before)
  {
    assert forall i :: 0 <= i < |before| ==> after[i].number == before[i].number;
  }

  /** Only the balance of account `n` differs between the stores, by `delta`. */
  ghost predicate OnlyMoved(b: Bank, after: Bank, n: AccountNumber, delta: Cents) {
    && Balance(b, n).Some?
    && Balance(after, n) == Some(Balance(b, n).value + delta)
    && forall o :: o != n ==> Balance(after, o) == Balance(b, o)
  }

  /** Two postings that move the same account by the same amount leave the same balances. */
  lemma SameMoves(b: Bank, a: Bank, c: Bank, n: AccountNumber, delta: Cents)
    requires OnlyMoved(b, a, n, delta) && OnlyMoved(b, c, n, delta)
    ensures forall o :: Balance(a, o) == Balance(c, o)
  {
    forall o
      ensures Balance(a, o) == Balance(c, o)
    {
      if o != n {
        assert Balance(a, o) == Balance(b, o);
      }
    }
  }

  /** Moving an account by `delta` and then by `-delta` restores every balance. */
  lemma MovedBack(b: Bank, a: Bank, c: Bank, n: AccountNumber, delta: Cents)
    requires OnlyMoved(b, a, n, delta) && OnlyMoved(a, c, n, -delta)
    ensures forall o :: Balance(c, o) == Balance(b, o)
  {
    forall o
      ensures Balance(c, o) == Balance(b, o)
    {
      if o != n {
        assert Balance(c, o) == Balance(a, o);
      }
    }
  }

  /** `amount` went from account `from` to account `to`; no other balance differs. */
  ghost predicate TwoMoved(b: Bank, after: Bank, from: AccountNumber, to: AccountNumber, amount: Cents) {
    && from != to
    && Balance(b, from).Some? && Balance(b, to).Some?
    && Balance(after, from) == Some(Balance(b, from).value - amount)
    && Balance(after, to) == Some(Balance(b, to).value + amount)
    && forall o :: o != from && o != to ==> Balance(after, o) == Balance(b, o)
  }

  /** Moves the balance of account `n`, found at position `i`, by `delta` and records `ms`. */
  function PostOne(b: Bank, i: nat, n: AccountNumber, delta: Cents, ms: seq<Movement>): (p: Posted)
    requires i < |b.accounts| && b.accounts[i].number == n
    requires FindAccountIndex(b.accounts, n) == Some(i)
    requires forall k :: 0 <= k < |ms| ==> ms[k].id == NextMovementId(b) + k
    ensures Posts(b, p) && p.movements == ms
    ensures OnlyMoved(b, p.bank, n, delta)
  {
    var v := b.accounts[i].balance + delta;
    var b1 := WithBalance(b, i, v);
    BalanceOfFound(b, i);
    BalanceAfterUpdate(b, i, v);
    WithBalanceKeepsRows(b, i, v);
    AppendKeepsBalances(b1, ms);
    Posted(Append(b1, ms), ms)
  }

  /** The store with `amount` moved from the account at `i` to the account at `j`. */
  function Shift(b: Bank, i: nat, j: nat, amount: Cents): (r: Bank)
    requires i < |b.accounts| && j < |b.accounts|
    ensures r.users == b.users && r.movements == b.movements
  {
    WithBalance(WithBalance(b, i, b.accounts[i].balance - amount), j, b.accounts[j].balance + amount)
  }

  /** Moves `amount` from account `from` (at `i`) to account `to` (at `j`) and records `ms`. */
  function PostTwo(b: Bank, i: nat, from: AccountNumber, j: nat, to: AccountNumber, amount: Cents, ms: seq<Movement>): (p: Posted)
    requires i < |b.accounts| && j < |b.accounts| && from != to
    requires b.accounts[i].number == from && b.accounts[j].number == to
    requires FindAccountIndex(b.accounts, from) == Some(i)
    requires FindAccountIndex(b.accounts, to) == Some(j)
    requires forall k :: 0 <= k < |ms| ==> ms[k].id == NextMovementId(b) + k
    ensures Posts(b, p) && p.movements == ms
    ensures TwoMoved(b, p.bank, from, to, amount)
    ensures Total(p.bank.accounts) == Total(b.accounts)
    ensures b.accounts[i].owner == b.accounts[j].owner ==> forall u ::
      Total(OwnedBy(p.bank.accounts, u)) == Total(OwnedBy(b.accounts, u))
  {
    var b2 := Shift(b, i, j, amount);
    ShiftKeepsRows(b, i, j, amount);
    TwoUpdates(b, i, from, j, to, amount);
    TwoUpdatesTotals(b, i, j, amount);
    AppendKeepsBalances(b2, ms);
    Posted(Append(b2, ms), ms)
  }

  /** Moving an amount between two accounts changes no column but the balances. */
  lemma ShiftKeepsRows(b: Bank, i: nat, j: nat, amount: Cents)
    requires i < |b.accounts| && j < |b.accounts|
    ensures SameRowsButBalances(b.accounts, Shift(b, i, j, amount).accounts)
  {
    var b1 := WithBalance(b, i, b.accounts[i].balance - amount);
    var b2 := WithBalance(b1, j, b.accounts[j].balance + amount);
    assert Shift(b, i, j, amount) == b2;
    WithBalanceKeepsRows(b, i, b.accounts[i].balance - amount);
    WithBalanceKeepsRows(b1, j, b.accounts[j].balance + amount);
    SameRowsTransitive(b.accounts, b1.accounts, b2.accounts);
  }

  /** Moving an amount between two distinct accounts changes just their two balances. */
  lemma TwoUpdates(b: Bank, i: nat, from: AccountNumber, j: nat, to: AccountNumber, amount: Cents)
    requires i < |b.accounts| && j < |b.accounts| && from != to
    requires b.accounts[i].number == from && b.accounts[j].number == to
    requires FindAccountIndex(b.accounts, from) == Some(i)
    requires FindAccountIndex(b.accounts, to) == Some(j)
    ensures TwoMoved(b, Shift(b, i, j, amount), from, to, amount)
  {
    var v := b.accounts[i].balance - amount;
    var w := b.accounts[j].balance + amount;
    var b1 := WithBalance(b, i, v);
    var b2 := WithBalance(b1, j, w);
    assert Shift(b, i, j, amount) == b2;
    assert b1.accounts[j] == b.accounts[j];
    assert FindAccountIndex(b1.accounts, to) == Some(j) by {
      assert Numbers(b1.accounts) == Numbers(b.accounts);
    }
    BalanceOfFound(b, i);
    BalanceOfFound(b, j);
    BalanceAfterUpdateAt(b, i, v, from);
    BalanceAfterUpdateAt(b, i, v, to);
    BalanceAfterUpdateAt(b1, j, w, from);
    BalanceAfterUpdateAt(b1, j, w, to);
    forall o | o != from && o != to
      ensures Balance(b2, o) == Balance(b, o)
    {
      BalanceAfterUpdateAt(b, i, v, o);
      BalanceAfterUpdateAt(b1, j, w, o);
    }
  }

  /** Moving an amount between two rows keeps the bank total, and the owner's
      total when both rows have the same owner. */
  lemma TwoUpdatesTotals(b: Bank, i: nat, j: nat, amount: Cents)
    requires i < |b.accounts| && j < |b.accounts| && i != j
    ensures Total(Shift(b, i, j, amount).accounts) == Total(b.accounts)
    ensures b.accounts[i].owner == b.accounts[j].owner ==> forall u ::
      Total(OwnedBy(Shift(b, i, j, amount).accounts, u)) == Total(OwnedBy(b.accounts, u))
  {
    var b1 := WithBalance(b, i, b.accounts[i].balance - amount);
    var b2 := WithBalance(b1, j, b.accounts[j].balance + amount);
    assert Shift(b, i, j, amount) == b2;
    assert b1.accounts[j] == b.accounts[j];
    TotalAfterUpdate(b.accounts, i, b1.accounts[i]);
    TotalAfterUpdate(b1.accounts, j, b2.accounts[j]);
    forall u | b.accounts[i].owner == b.accounts[j].owner
      ensures Total(OwnedBy(b2.accounts, u)) == Total(OwnedBy(b.accounts, u))
    {
      OwnedTotalAfterUpdate(b.accounts, i, b1.accounts[i], u);
      OwnedTotalAfterUpdate(b1.accounts, j, b2.accounts[j], u);
    }
  }

  lemma SameRowsTransitive(a: seq<Account>, b: seq<Account>, c: seq<Account>)
    requires SameRowsButBalances(a, b) && SameRowsButBalances(b, c)
    ensures SameRowsButBalances(a, c)
  {
  }

  /** Appending movements leaves every balance where it was. */
  lemma AppendKeepsBalances(b: Bank, ms: seq<Movement>)
    ensures forall n :: Balance(Append(b, ms), n) == Balance(b, n)
  {
  }

  /** No account is overdrawn. */
  predicate NonNegative(b: Bank) {
    forall i :: 0 <= i < |b.accounts| ==> b.accounts[i].balance >= 0
  }

  /** The signed effect of a movement: income adds, expense subtracts. */
  function Signed(m: Movement): Cents {
    match m.kind
    case Income => m.amount
    case Expense => -m.amount
  }

  /** The net of the movements recorded against account `n`. */
  function Net(ms: seq<Movement>, n: AccountNumber): Cents {
    if |ms| == 0 then 0
    else (if ms[0].account == n then Signed(ms[0]) else 0) + Net(ms[1..], n)
  }

  /** The net of a single movement. */
  lemma NetOfOne(ms: seq<Movement>, n: AccountNumber)
    requires |ms| == 1
    ensures Net(ms, n) == if ms[0].account == n then Signed(ms[0]) else 0
  {
    assert ms[1..] == [];
  }

  /** The net of two movements. */
  lemma NetOfTwo(ms: seq<Movement>, n: AccountNumber)
    requires |ms| == 2
    ensures Net(ms, n) == (if ms[0].account == n then Signed(ms[0]) else 0) + (if ms[1].account == n then Signed(ms[1]) else 0)
  {
    NetOfOne(ms[1..], n);
  }

  /** In a store without negative balances, every balance found by number is non-negative. */
  lemma NonNegativeBalances(b: Bank)
    requires NonNegative(b)
    ensures forall n :: Balance(b, n).Some? ==> Balance(b, n).value >= 0
  {
    forall n | Balance(b, n).Some?
      ensures Balance(b, n).value >= 0
    {
      BalanceInFound(b.accounts, n);
    }
  }

  /** A posting reconciles when, for every account, the balance moved by exactly
      the net of the movements it recorded against that account. */
  ghost predicate Reconciles(b: Bank, p: Posted) {
    forall n :: Balance(b, n).Some? ==> Balance(p.bank, n) == Some(Balance(b, n).value + Net(p.movements, n))
  }

  /** The books a ledger operation must keep: a valid store stays valid, no
      balance goes negative, and each balance moves by the net of the movements
      recorded against its account. */
  ghost predicate KeepsBooks(b: Bank, p: Posted) {
    Valid(p.bank) && NonNegative(p.bank) && Reconciles(b, p)
  }

  /** An account found by number is among the table's numbers. */
  lemma FoundInNumbers(b: Bank, n: AccountNumber)
    requires Balance(b, n).Some?
    ensures n in Numbers(b.accounts)
  {
    BalanceInFound(b.accounts, n);
    var i := FindAccountIndex(b.accounts, n).value;
    assert Numbers(b.accounts)[i] == n;
  }

  /** Moving one account by the signed amount of the single movement recorded
      against it reconciles. */
  lemma OneReconciles(b: Bank, p: Posted, n: AccountNumber, delta: Cents)
    requires OnlyMoved(b, p.bank, n, delta)
    requires |p.movements| == 1 && p.movements[0].account == n && Signed(p.movements[0]) == delta
    ensures Reconciles(b, p)
  {
    forall o | Balance(b, o).Some?
      ensures Balance(p.bank, o) == Some(Balance(b, o).value + Net(p.movements, o))
    {
      NetOfOne(p.movements, o);
      if o != n {
        assert Balance(p.bank, o) == Balance(b, o);
      }
    }
  }

  /** Moving `amount` between two accounts, recording the debit and then the
      credit, reconciles. */
  lemma TwoReconciles(b: Bank, p: Posted, from: AccountNumber, to: AccountNumber, amount: Cents)
    requires TwoMoved(b, p.bank, from, to, amount)
    requires |p.movements| == 2
    requires p.movements[0].account == from && Signed(p.movements[0]) == -amount
    requires p.movements[1].account == to && Signed(p.movements[1]) == amount
    ensures Reconciles(b, p)
  {
    forall o | Balance(b, o).Some?
      ensures Balance(p.bank, o) == Some(Balance(b, o).value + Net(p.movements, o))
    {
      NetOfTwo(p.movements, o);
      if o != from && o != to {
        assert Balance(p.bank, o) == Balance(b, o);
      }
    }
  }

  lemma BothRecorded(ms: seq<Movement>, numbers: seq<AccountNumber>)
    requires |ms| == 2 && ms[0].account in numbers && ms[1].account in numbers
    ensures forall k :: 0 <= k < |ms| ==> ms[k].account in numbers
  {
  }

  /** A posting that moves one account without overdrawing it, and records
      movements only against that account, keeps the store valid and without
      negative balances. */
  lemma OneStaysSound(b: Bank, p: Posted, n: AccountNumber, delta: Cents)
    requires Valid(b) && NonNegative(b)
    requires Posts(b, p) && OnlyMoved(b, p.bank, n, delta)
    requires forall k :: 0 <= k < |p.movements| ==> p.movements[k].account == n
    requires Balance(b, n).value + delta >= 0
    ensures Valid(p.bank) && NonNegative(p.bank)
  {
    FoundInNumbers(b, n);
    PostsKeepsValid(b, p);
    NonNegativeBalances(b);
    assert forall o :: Balance(p.bank, o).Some? ==> Balance(p.bank, o).value >= 0 by {
      PostsKeepsOwnership(b, p);
    }
    NonNegativeByNumber(p.bank);
  }

  /** A posting that moves one account by the signed amount of the single
      movement it records, without overdrawing it, keeps the books. */
  lemma OneKeepsBooks(b: Bank, p: Posted, n: AccountNumber, delta: Cents)
    requires Valid(b) && NonNegative(b)
    requires Posts(b, p) && OnlyMoved(b, p.bank, n, delta)
    requires |p.movements| == 1 && p.movements[0].account == n && Signed(p.movements[0]) == delta
    requires Balance(b, n).value + delta >= 0
    ensures KeepsBooks(b, p)
  {
    OneStaysSound(b, p, n, delta);
    OneReconciles(b, p, n, delta);
  }

  /** A posting that debits account `n` by `amount` but records a debit and a
      credit of that amount, both against `n`, keeps the store valid and without
      negative balances, yet reconciles only when the amount is zero. */
  lemma TwoOnOneMisrecords(b: Bank, p: Posted, n: AccountNumber, amount: Cents)
    requires Valid(b) && NonNegative(b)
    requires Posts(b, p) && OnlyMoved(b, p.bank, n, -amount)
    requires |p.movements| == 2 && p.movements[0].account == n && p.movements[1].account == n
    requires Signed(p.movements[0]) == -amount && Signed(p.movements[1]) == amount
    requires Balance(b, n).value >= amount
    ensures Valid(p.bank) && NonNegative(p.bank)
    ensures Balance(p.bank, n) == Some(Balance(b, n).value - amount)
    ensures Net(p.movements, n) == 0
    ensures Reconciles(b, p) <==> amount == 0
  {
    OneStaysSound(b, p, n, -amount);
    NetOfTwo(p.movements, n);
    if amount == 0 {
      forall o | Balance(b, o).Some?
        ensures Balance(p.bank, o) == Some(Balance(b, o).value + Net(p.movements, o))
      {
        NetOfTwo(p.movements, o);
        if o != n {
          assert Balance(p.bank, o) == Balance(b, o);
        }
      }
    }
  }

  /** A posting that moves `amount` between two accounts, recording the debit
      and then the credit, without overdrawing the debited account, keeps the books. */
  lemma TwoKeepsBooks(b: Bank, p: Posted, from: AccountNumber, to: AccountNumber, amount: Cents)
    requires Valid(b) && NonNegative(b)
    requires Posts(b, p) && TwoMoved(b, p.bank, from, to, amount)
    requires |p.movements| == 2
    requires p.movements[0].account == from && Signed(p.movements[0]) == -amount
    requires p.movements[1].account == to && Signed(p.movements[1]) == amount
    requires 0 <= amount <= Balance(b, from).value
    ensures KeepsBooks(b, p)
  {
    FoundInNumbers(b, from);
    FoundInNumbers(b, to);
    BothRecorded(p.movements, Numbers(b.accounts));
    PostsKeepsValid(b, p);
    NonNegativeBalances(b);
    PostsKeepsOwnership(b, p);
    forall o | Balance(p.bank, o).Some?
      ensures Balance(p.bank, o).value >= 0
    {
      if o != from && o != to {
        assert Balance(p.bank, o) == Balance(b, o);
      }
    }
    NonNegativeByNumber(p.bank);
    TwoReconciles(b, p, from, to, amount);
  }

  /** A posting that moves `amount` from `from` to `to` and records the debit,
      then the credit. */
  ghost predicate Transferred(b: Bank, p: Posted, from: AccountNumber, to: AccountNumber, amount: Cents) {
    && Posts(b, p) && TwoMoved(b, p.bank, from, to, amount)
    && |p.movements| == 2
    && p.movements[0].account == from && Signed(p.movements[0]) == -amount
    && p.movements[1].account == to && Signed(p.movements[1]) == amount
  }

  /** Such a posting, within the debited balance, keeps the books. */
  lemma TransferredKeepsBooks(b: Bank, p: Posted, from: AccountNumber, to: AccountNumber, amount: Cents)
    requires Valid(b) && NonNegative(b)
    requires Transferred(b, p, from, to, amount)
    requires 0 <= amount <= Balance(b, from).value
    ensures KeepsBooks(b, p)
  {
    TwoKeepsBooks(b, p, from, to, amount);
  }

  /** `findByAccountIdOrderByDateDesc` before ordering: the movements of one account, in log order. */
  function MovementsOn(ms: seq<Movement>, n: AccountNumber): (r: seq<Movement>)
    ensures forall m :: m in r <==> m in ms && m.account == n
    ensures |r| <= |ms|
  {
    if |ms| == 0 then []
    else if ms[0].account == n then [ms[0]] + MovementsOn(ms[1..], n)
    else MovementsOn(ms[1..], n)
  }

  /** Sum of the balances of a list of accounts (the dashboard's reduce). */
  function Total(accounts: seq<Account>): Cents {
    if |accounts| == 0 then 0 else accounts[0].balance + Total(accounts[1..])
  }

  /** `user.getAccounts()`: the accounts owned by the user, in table order. */
  function OwnedBy(accounts: seq<Account>, owner: UserId): (r: seq<Account>)
    ensures forall a :: a in r <==> a in accounts && a.owner == owner
    ensures |r| <= |accounts|
  {
    if |accounts| == 0 then []
    else if accounts[0].owner == owner then [accounts[0]] + OwnedBy(accounts[1..], owner)
    else OwnedBy(accounts[1..], owner)
  }

  /** Replacing one account changes the total by the difference of the two balances. */
  lemma {:induction false} TotalAfterUpdate(s: seq<Account>, i: nat, a: Account)
    requires i < |s|
    ensures Total(s[i := a]) == Total(s) - s[i].balance + a.balance
  {
    if i > 0 {
      assert s[i := a][1..] == s[1..][i - 1 := a];
      TotalAfterUpdate(s[1..], i - 1, a);
    } else {
      assert s[i := a][1..] == s[1..];
    }
  }

  /** The same for one owner's accounts, when the replaced account keeps its owner. */
  lemma {:induction false} OwnedTotalAfterUpdate(s: seq<Account>, i: nat, a: Account, owner: UserId)
    requires i < |s|
    requires a.owner == s[i].owner
    ensures Total(OwnedBy(s[i := a], owner))
         == Total(OwnedBy(s, owner)) + (if s[i].owner == owner then a.balance - s[i].balance else 0)
  {
    if i > 0 {
      assert s[i := a][1..] == s[1..][i - 1 := a];
      OwnedTotalAfterUpdate(s[1..], i - 1, a, owner);
    } else {
      assert s[i := a][1..] == s[1..];
    }
  }

  /** Table invariants the database keeps: unique keys, and references that resolve. */
  predicate Valid(b: Bank) {
    && Distinct(Numbers(b.accounts))
    && Distinct(UserIds(b.users))
    && Distinct(Emails(b.users))
    && Distinct(Dpis(b.users))
    && (forall i :: 0 <= i < |b.accounts| ==> b.accounts[i].owner in UserIds(b.users))
    && (forall k :: 0 <= k < |b.movements| ==> b.movements[k].id == k + 1)
    && (forall k :: 0 <= k < |b.movements| ==> b.movements[k].account in Numbers(b.accounts))
  }

  /** In a valid store every account is found at its own position. */
  lemma AccountFoundAtOwnIndex(b: Bank, i: nat)
    requires Valid(b)
    requires i < |b.accounts|
    ensures FindAccountIndex(b.accounts, b.accounts[i].number) == Some(i)
  {
    IndexOfDistinct(Numbers(b.accounts), i);
  }

  /** Changing a balance keeps the store valid. */
  lemma ValidAfterUpdate(b: Bank, i: nat, v: Cents)
    requires Valid(b)
    requires i < |b.accounts|
    ensures Valid(WithBalance(b, i, v))
  {
    assert Numbers(WithBalance(b, i, v).accounts) == Numbers(b.accounts);
  }

  /** Appending movements with the next ids, on existing accounts, keeps the store valid. */
  lemma ValidAfterAppend(b: Bank, ms: seq<Movement>)
    requires Valid(b)
    requires forall k :: 0 <= k < |ms| ==> ms[k].id == |b.movements| + k + 1
    requires forall k :: 0 <= k < |ms| ==> ms[k].account in Numbers(b.accounts)
    ensures Valid(Append(b, ms))
  {
    var b' := Append(b, ms);
    forall k | 0 <= k < |b'.movements|
      ensures b'.movements[k].id == k + 1 && b'.movements[k].account in Numbers(b'.accounts)
    {
      if k >= |b.movements| {
        assert b'.movements[k] == ms[k - |b.movements|];
      }
    }
  }

  /** A posting changes neither who exists nor who owns what. */
  lemma PostsKeepsOwnership(b: Bank, p: Posted)
    requires Posts(b, p)
    ensures forall id :: UserExists(p.bank, id) <==> UserExists(b, id)
    ensures forall n, owner :: Owns(p.bank, n, owner) <==> Owns(b, n, owner)
    ensures forall n :: Balance(p.bank, n).Some? <==> Balance(b, n).Some?
  {
    SameRowsSameNumbers(b.accounts, p.bank.accounts);
    forall n: AccountNumber
      ensures FindAccountIndex(p.bank.accounts, n) == FindAccountIndex(b.accounts, n)
      ensures Balance(p.bank, n).Some? <==> Balance(b, n).Some?
    {
      BalanceInFound(p.bank.accounts, n);
      BalanceInFound(b.accounts, n);
    }
  }

  /** A posting whose movements name existing accounts keeps the store valid. */
  lemma PostsKeepsValid(b: Bank, p: Posted)
    requires Valid(b) && Posts(b, p)
    requires forall k :: 0 <= k < |p.movements| ==> p.movements[k].account in Numbers(b.accounts)
    ensures Valid(p.bank)
  {
    SameRowsSameNumbers(b.accounts, p.bank.accounts);
    var after := p.bank;
    forall i | 0 <= i < |after.accounts|
      ensures after.accounts[i].owner in UserIds(after.users)
    {
      assert after.accounts[i].owner == b.accounts[i].owner;
    }
    forall k | 0 <= k < |after.movements|
      ensures after.movements[k].id == k + 1 && after.movements[k].account in Numbers(after.accounts)
    {
      if k >= |b.movements| {
        assert after.movements[k] == p.movements[k - |b.movements|];
      }
    }
  }

  /** In a table without repeated numbers, each row's balance is the one found by its number. */
  lemma BalanceOfRow(b: Bank, i: nat)
    requires Distinct(Numbers(b.accounts))
    requires i < |b.accounts|
    ensures Balance(b, b.accounts[i].number) == Some(b.accounts[i].balance)
  {
    IndexOfDistinct(Numbers(b.accounts), i);
    BalanceOfFound(b, i);
  }

  /** Non-negativity, stated through lookups by number. */
  lemma NonNegativeByNumber(b: Bank)
    requires Distinct(Numbers(b.accounts))
    ensures NonNegative(b) <==> forall n :: Balance(b, n).Some? ==> Balance(b, n).value >= 0
  {
    if NonNegative(b) {
      NonNegativeBalances(b);
    }
    if forall n :: Balance(b, n).Some? ==> Balance(b, n).value >= 0 {
      forall i | 0 <= i < |b.accounts|
        ensures b.accounts[i].balance >= 0
      {
        BalanceOfRow(b, i);
      }
    }
  }
}
