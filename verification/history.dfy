/** A user's movement history (legacy `MovimientoService`, newer `MovementService`):
    every account the user owns is queried with the repository query the optional
    arguments select, the per-account lists are concatenated in account order, the
    whole is ordered newest first and each movement becomes a DTO. */
module History {
  import opened Common
  import opened Bank
  import opened Chronology
  import opened Responses

  /** The four repository queries the services choose between. */
  datatype Filter =
    | KindInRange(kind: Kind, from: Date, to: Date)
    | InRange(from: Date, to: Date)
    | OfKind(kind: Kind)
    | Everything

  /** Whether a movement is returned by the query `f` (`Between` is inclusive at both ends). */
  predicate Matches(f: Filter, m: Movement) {
    match f
    case KindInRange(k, from, to) => m.kind == k && from <= m.date <= to
    case InRange(from, to) => from <= m.date <= to
    case OfKind(k) => m.kind == k
    case Everything => true
  }

  /** The query chosen from the optional arguments: each criterion the caller gave is
      enforced, except that a date range only applies when both ends are given. */
  function ChooseFilter(start: Option<Date>, end: Option<Date>, kind: Option<Kind>): (f: Filter)
    ensures forall m :: Matches(f, m) <==>
      && (kind.Some? ==> m.kind == kind.value)
      && (start.Some? && end.Some? ==> start.value <= m.date <= end.value)
  {
    if start.Some? && end.Some? && kind.Some? then KindInRange(kind.value, start.value, end.value)
    else if start.Some? && end.Some? then InRange(start.value, end.value)
    else if kind.Some? then OfKind(kind.value)
    else Everything
  }

  /** The movements of `ms` the query returns, in log order. */
  function Keep(ms: seq<Movement>, f: Filter): (r: seq<Movement>)
    ensures forall m :: m in r <==> m in ms && Matches(f, m)
    ensures |r| <= |ms|
  {
    if |ms| == 0 then []
    else if Matches(f, ms[0]) then [ms[0]] + Keep(ms[1..], f)
    else Keep(ms[1..], f)
  }

  /** One `findByAccountId...OrderByDateDesc` query: the filtered movements of account `n`, newest first. */
  function AccountQuery(ms: seq<Movement>, n: AccountNumber, f: Filter): (r: seq<Movement>)
    ensures NewestFirst(r)
    ensures multiset(r) == multiset(Keep(MovementsOn(ms, n), f))
  {
    SortNewestFirst(Keep(MovementsOn(ms, n), f))
  }

  /** The `flatMap` over the user's accounts. */
  function Gather(ms: seq<Movement>, accounts: seq<Account>, f: Filter): seq<Movement> {
    if |accounts| == 0 then []
    else AccountQuery(ms, accounts[0].number, f) + Gather(ms, accounts[1..], f)
  }

  /** Reference definition: the movements of the log that lie on one of the accounts
      `numbers` and pass the query, each once, in log order. */
  function Selected(ms: seq<Movement>, numbers: seq<AccountNumber>, f: Filter): (r: seq<Movement>)
    ensures forall m :: m in r <==> m in ms && m.account in numbers && Matches(f, m)
  {
    if |ms| == 0 then []
    else if ms[0].account in numbers && Matches(f, ms[0]) then [ms[0]] + Selected(ms[1..], numbers, f)
    else Selected(ms[1..], numbers, f)
  }

  /** The movements the services return before conversion: gathered, then sorted newest first. */
  function Collected(b: Bank, userId: UserId, f: Filter): seq<Movement> {
    SortNewestFirst(Gather(b.movements, OwnedBy(b.accounts, userId), f))
  }

  /** The gathered movements are exactly those on one of the accounts that pass the query. */
  lemma {:induction false} GatherMembers(ms: seq<Movement>, accounts: seq<Account>, f: Filter)
    ensures forall m :: m in Gather(ms, accounts, f) <==> m in ms && m.account in Numbers(accounts) && Matches(f, m)
  {
    if |accounts| > 0 {
      var n := accounts[0].number;
      GatherMembers(ms, accounts[1..], f);
      assert Numbers(accounts) == [n] + Numbers(accounts[1..]);
      forall m ensures m in AccountQuery(ms, n, f) <==> m in Keep(MovementsOn(ms, n), f) {
        assert m in AccountQuery(ms, n, f) <==> m in multiset(AccountQuery(ms, n, f));
        assert m in Keep(MovementsOn(ms, n), f) <==> m in multiset(Keep(MovementsOn(ms, n), f));
      }
    }
  }

  /** Querying one more account adds that account's movements to the selection. */
  lemma {:induction false} SelectedOneMore(ms: seq<Movement>, n: AccountNumber, numbers: seq<AccountNumber>, f: Filter)
    requires n !in numbers
    ensures multiset(Selected(ms, [n] + numbers, f))
         == multiset(Keep(MovementsOn(ms, n), f)) + multiset(Selected(ms, numbers, f))
  {
    if |ms| > 0 {
      var m, t := ms[0], ms[1..];
      SelectedOneMore(t, n, numbers, f);
      assert m.account in [n] + numbers <==> m.account == n || m.account in numbers;
      if Matches(f, m) && m.account == n {
        assert Keep(MovementsOn(ms, n), f) == [m] + Keep(MovementsOn(t, n), f);
        assert Selected(ms, numbers, f) == Selected(t, numbers, f);
        assert Selected(ms, [n] + numbers, f) == [m] + Selected(t, [n] + numbers, f);
      } else if Matches(f, m) && m.account in numbers {
        assert Keep(MovementsOn(ms, n), f) == Keep(MovementsOn(t, n), f);
        assert Selected(ms, numbers, f) == [m] + Selected(t, numbers, f);
        assert Selected(ms, [n] + numbers, f) == [m] + Selected(t, [n] + numbers, f);
      } else {
        assert Keep(MovementsOn(ms, n), f) == Keep(MovementsOn(t, n), f);
        assert Selected(ms, numbers, f) == Selected(t, numbers, f);
        assert Selected(ms, [n] + numbers, f) == Selected(t, [n] + numbers, f);
      }
    }
  }

  /** With no account the selection is empty. */
  lemma SelectedNone(ms: seq<Movement>, f: Filter)
    ensures Selected(ms, [], f) == []
  {
  }

  /** Over accounts with distinct numbers, the gathered movements are the selection,
      each movement as often as it occurs in the log. */
  lemma {:induction false} GatherSelects(ms: seq<Movement>, accounts: seq<Account>, f: Filter)
    requires Distinct(Numbers(accounts))
    ensures multiset(Gather(ms, accounts, f)) == multiset(Selected(ms, Numbers(accounts), f))
  {
    if |accounts| == 0 {
      SelectedNone(ms, f);
      assert Numbers(accounts) == [];
    } else {
      var n := accounts[0].number;
      var rest := accounts[1..];
      assert Numbers(accounts) == [n] + Numbers(rest);
      DistinctTail(accounts);
      GatherSelects(ms, rest, f);
      SelectedOneMore(ms, n, Numbers(rest), f);
    }
  }

  /** Dropping the first account of a table with distinct numbers leaves distinct
      numbers, none of them the first account's. */
  lemma DistinctTail(accounts: seq<Account>)
    requires |accounts| > 0 && Distinct(Numbers(accounts))
    ensures Distinct(Numbers(accounts[1..]))
    ensures forall a :: a in accounts[1..] ==> a.number != accounts[0].number
  {
    var rest := accounts[1..];
    forall i, j | 0 <= i < j < |rest| ensures Numbers(rest)[i] != Numbers(rest)[j] {
      assert Numbers(accounts)[i + 1] != Numbers(accounts)[j + 1];
    }
    forall a | a in rest ensures a.number != accounts[0].number {
      var j :| 0 <= j < |rest| && rest[j] == a;
      assert Numbers(accounts)[0] != Numbers(accounts)[j + 1];
    }
  }

  /** Keeping the accounts of one owner keeps the numbers distinct. */
  lemma {:induction false} OwnedByDistinct(accounts: seq<Account>, owner: UserId)
    requires Distinct(Numbers(accounts))
    ensures Distinct(Numbers(OwnedBy(accounts, owner)))
  {
    if |accounts| > 0 {
      var rest := accounts[1..];
      DistinctTail(accounts);
      OwnedByDistinct(rest, owner);
      if accounts[0].owner == owner {
        var tail := OwnedBy(rest, owner);
        ConsDistinct(accounts[0], tail);
        assert OwnedBy(accounts, owner) == [accounts[0]] + tail;
      } else {
        assert OwnedBy(accounts, owner) == OwnedBy(rest, owner);
      }
    }
  }

  /** An account in front of accounts with distinct numbers other than its own keeps
      the numbers distinct. */
  lemma ConsDistinct(a: Account, tail: seq<Account>)
    requires Distinct(Numbers(tail))
    requires forall t :: t in tail ==> t.number != a.number
    ensures Distinct(Numbers([a] + tail))
  {
    var all := [a] + tail;
    forall i, j | 0 <= i < j < |all| ensures Numbers(all)[i] != Numbers(all)[j] {
      assert all[j] == tail[j - 1];
      if i > 0 {
        assert all[i] == tail[i - 1];
        assert Numbers(tail)[i - 1] != Numbers(tail)[j - 1];
      } else {
        assert tail[j - 1] in tail;
      }
    }
  }

  /** The history holds exactly the logged movements on the user's accounts that pass the query. */
  lemma CollectedMembers(b: Bank, userId: UserId, f: Filter)
    ensures forall m :: m in Collected(b, userId, f) <==>
      m in b.movements && m.account in Numbers(OwnedBy(b.accounts, userId)) && Matches(f, m)
  {
    var gathered := Gather(b.movements, OwnedBy(b.accounts, userId), f);
    GatherMembers(b.movements, OwnedBy(b.accounts, userId), f);
    forall m ensures m in Collected(b, userId, f) <==> m in gathered {
      SortKeepsMembers(gathered, m);
    }
  }

  /** What the history holds: newest first; exactly the logged movements on the user's
      accounts that pass the query; and, when account numbers are unique, each such
      movement exactly once. */
  lemma CollectedMeaning(b: Bank, userId: UserId, f: Filter)
    ensures NewestFirst(Collected(b, userId, f))
    ensures forall m :: m in Collected(b, userId, f) <==>
      m in b.movements && m.account in Numbers(OwnedBy(b.accounts, userId)) && Matches(f, m)
    ensures Distinct(Numbers(b.accounts)) ==>
      multiset(Collected(b, userId, f)) == multiset(Selected(b.movements, Numbers(OwnedBy(b.accounts, userId)), f))
  {
    CollectedMembers(b, userId, f);
    if Distinct(Numbers(b.accounts)) {
      OwnedByDistinct(b.accounts, userId);
      GatherSelects(b.movements, OwnedBy(b.accounts, userId), f);
    }
  }

  /** Every account number in the user's accounts resolves to an account row. */
  predicate Resolves(b: Bank, ms: seq<Movement>) {
    forall k :: 0 <= k < |ms| ==> FindAccount(b, ms[k].account).Some?
  }

  lemma CollectedResolves(b: Bank, userId: UserId, f: Filter)
    ensures Resolves(b, Collected(b, userId, f))
  {
    CollectedMembers(b, userId, f);
    var c := Collected(b, userId, f);
    forall k | 0 <= k < |c| ensures FindAccount(b, c[k].account).Some? {
      assert c[k] in c;
      OwnedNumberResolves(b, userId, c[k].account);
    }
  }

  /** The number of an account the user owns is found in the account table. */
  lemma OwnedNumberResolves(b: Bank, userId: UserId, n: AccountNumber)
    requires n in Numbers(OwnedBy(b.accounts, userId))
    ensures FindAccount(b, n).Some?
  {
    var owned := OwnedBy(b.accounts, userId);
    var i :| 0 <= i < |owned| && Numbers(owned)[i] == n;
    assert owned[i] in owned;
    var j :| 0 <= j < |b.accounts| && b.accounts[j] == owned[i];
  }

  // ----- legacy MovimientoService -----

  /** The movement a legacy DTO describes. */
  function MovementOfMovimientoDto(d: MovimientoDto): Movement {
    Movement(d.id, d.numeroCuenta, d.fecha, d.descripcion, d.tipo, d.monto)
  }

  /** `convertToDto`: the DTO loses nothing of the movement and names its account row. */
  function ToMovimientoDto(b: Bank, m: Movement): (r: MovimientoDto)
    requires FindAccount(b, m.account).Some?
    ensures MovementOfMovimientoDto(r) == m
    ensures r.cuentaId == Some(FindAccount(b, m.account).value.id)
  {
    var a := FindAccount(b, m.account).value;
    MovimientoDto(m.id, Some(a.id), a.number, m.date, m.description, m.kind, m.amount)
  }

  function ToMovimientoDtos(b: Bank, ms: seq<Movement>): (r: seq<MovimientoDto>)
    requires Resolves(b, ms)
    ensures |r| == |ms|
    ensures forall k :: 0 <= k < |ms| ==> r[k] == ToMovimientoDto(b, ms[k])
  {
    seq(|ms|, k requires 0 <= k < |ms| => ToMovimientoDto(b, ms[k]))
  }

  /** `getMovimientosByUsuarioId`. An unknown user throws a RuntimeException; a user
      without accounts gets an empty list. */
  function LegacyHistory(b: Bank, userId: UserId, start: Option<Date>, end: Option<Date>, kind: Option<Kind>)
    : (r: Result<seq<MovimientoDto>>)
    ensures r.Err? <==> !UserExists(b, userId)
    ensures r.Err? ==> r.error == Error(RuntimeException, UserNotFound)
    ensures r.Ok? && |OwnedBy(b.accounts, userId)| == 0 ==> r.value == []
  {
    if !UserExists(b, userId) then Err(Error(RuntimeException, UserNotFound))
    else if |OwnedBy(b.accounts, userId)| == 0 then Ok([])
    else
      var c := Collected(b, userId, ChooseFilter(start, end, kind));
      CollectedResolves(b, userId, ChooseFilter(start, end, kind));
      Ok(ToMovimientoDtos(b, c))
  }

  /** The legacy history of an existing user, in the DTOs' own terms: newest first; each
      entry describes a logged movement on one of the user's accounts that meets every
      criterion given; every such movement is described; and with unique account numbers
      the list is as long as the log has such movements. */
  lemma {:induction false} LegacyHistoryMeaning(b: Bank, userId: UserId, start: Option<Date>, end: Option<Date>, kind: Option<Kind>)
    requires UserExists(b, userId)
    ensures LegacyHistory(b, userId, start, end, kind).Ok?
    ensures var r := LegacyHistory(b, userId, start, end, kind).value;
      && (forall i, j :: 0 <= i < j < |r| ==> r[i].fecha >= r[j].fecha)
      && (forall k :: 0 <= k < |r| ==>
            && MovementOfMovimientoDto(r[k]) in b.movements
            && r[k].numeroCuenta in Numbers(OwnedBy(b.accounts, userId))
            && Matches(ChooseFilter(start, end, kind), MovementOfMovimientoDto(r[k])))
      && (forall m ::
            m in b.movements && m.account in Numbers(OwnedBy(b.accounts, userId))
            && Matches(ChooseFilter(start, end, kind), m)
            ==> exists k :: 0 <= k < |r| && MovementOfMovimientoDto(r[k]) == m)
      && (Distinct(Numbers(b.accounts)) ==>
            |r| == |Selected(b.movements, Numbers(OwnedBy(b.accounts, userId)), ChooseFilter(start, end, kind))|)
  {
    var f := ChooseFilter(start, end, kind);
    var c := Collected(b, userId, f);
    CollectedMeaning(b, userId, f);
    CollectedResolves(b, userId, f);
    var r := LegacyHistory(b, userId, start, end, kind).value;
    if |OwnedBy(b.accounts, userId)| == 0 {
      assert Numbers(OwnedBy(b.accounts, userId)) == [];
      SelectedNone(b.movements, f);
    } else {
      assert r == ToMovimientoDtos(b, c);
      DescribesCollected(b, userId, f, r);
    }
  }

  /** A list of legacy DTOs that describes the collected movements one for one inherits their meaning. */
  lemma DescribesCollected(b: Bank, userId: UserId, f: Filter, r: seq<MovimientoDto>)
    requires |r| == |Collected(b, userId, f)|
    requires forall k :: 0 <= k < |r| ==> MovementOfMovimientoDto(r[k]) == Collected(b, userId, f)[k]
    ensures forall i, j :: 0 <= i < j < |r| ==> r[i].fecha >= r[j].fecha
    ensures forall k :: 0 <= k < |r| ==>
      && MovementOfMovimientoDto(r[k]) in b.movements
      && r[k].numeroCuenta in Numbers(OwnedBy(b.accounts, userId))
      && Matches(f, MovementOfMovimientoDto(r[k]))
    ensures forall m ::
      m in b.movements && m.account in Numbers(OwnedBy(b.accounts, userId)) && Matches(f, m)
      ==> exists k :: 0 <= k < |r| && MovementOfMovimientoDto(r[k]) == m
    ensures Distinct(Numbers(b.accounts)) ==>
      |r| == |Selected(b.movements, Numbers(OwnedBy(b.accounts, userId)), f)|
  {
    var c := Collected(b, userId, f);
    CollectedMeaning(b, userId, f);
    forall k | 0 <= k < |r| ensures c[k] in c {
    }
    forall m | m in b.movements && m.account in Numbers(OwnedBy(b.accounts, userId)) && Matches(f, m)
      ensures exists k :: 0 <= k < |r| && MovementOfMovimientoDto(r[k]) == m
    {
      var k :| 0 <= k < |c| && c[k] == m;
      assert MovementOfMovimientoDto(r[k]) == m;
    }
    if Distinct(Numbers(b.accounts)) {
      assert |multiset(c)| == |c|;
    }
  }

  // ----- newer MovementService -----

  /** The movement a newer DTO describes. */
  function MovementOfDto(d: MovementDto): Movement {
    Movement(d.id, d.accountNumber, d.date, d.description, d.kind, d.amount)
  }

  /** `convertToDto`: the DTO loses nothing of the movement, names its account row and leaves the balance unset. */
  function ToMovementDto(b: Bank, m: Movement): (r: MovementDto)
    requires FindAccount(b, m.account).Some?
    ensures MovementOfDto(r) == m
    ensures r.accountId == Some(FindAccount(b, m.account).value.id)
    ensures r.balance.None?
  {
    var a := FindAccount(b, m.account).value;
    MovementDto(m.id, Some(a.id), a.number, m.date, m.description, m.kind, m.amount, None)
  }

  function ToMovementDtos(b: Bank, ms: seq<Movement>): (r: seq<MovementDto>)
    requires Resolves(b, ms)
    ensures |r| == |ms|
    ensures forall k :: 0 <= k < |ms| ==> r[k] == ToMovementDto(b, ms[k])
  {
    seq(|ms|, k requires 0 <= k < |ms| => ToMovementDto(b, ms[k]))
  }

  /** `getMovementsByUserId`. An unknown user throws an IllegalArgumentException; there
      is no early return for a user without accounts. */
  function History(b: Bank, userId: UserId, start: Option<Date>, end: Option<Date>, kind: Option<Kind>)
    : (r: Result<seq<MovementDto>>)
    ensures r.Err? <==> !UserExists(b, userId)
    ensures r.Err? ==> r.error == Error(IllegalArgumentException, UserNotFound)
  {
    if !UserExists(b, userId) then Err(Error(IllegalArgumentException, UserNotFound))
    else
      var c := Collected(b, userId, ChooseFilter(start, end, kind));
      CollectedResolves(b, userId, ChooseFilter(start, end, kind));
      Ok(ToMovementDtos(b, c))
  }

  /** Both generations return the same movements in the same order for an existing user,
      and fail together for an unknown one; the legacy early return for a user without
      accounts changes nothing. */
  lemma {:induction false} HistoriesAgree(b: Bank, userId: UserId, start: Option<Date>, end: Option<Date>, kind: Option<Kind>)
    ensures LegacyHistory(b, userId, start, end, kind).Ok? <==> History(b, userId, start, end, kind).Ok?
    ensures LegacyHistory(b, userId, start, end, kind).Ok? ==>
      var legacy := LegacyHistory(b, userId, start, end, kind).value;
      var newer := History(b, userId, start, end, kind).value;
      && |legacy| == |newer|
      && forall k :: 0 <= k < |legacy| ==> MovementOfMovimientoDto(legacy[k]) == MovementOfDto(newer[k])
  {
    if UserExists(b, userId) {
      var f := ChooseFilter(start, end, kind);
      var c := Collected(b, userId, f);
      CollectedResolves(b, userId, f);
      if |OwnedBy(b.accounts, userId)| == 0 {
        assert Gather(b.movements, OwnedBy(b.accounts, userId), f) == [];
        assert c == [];
      }
    }
  }
}
