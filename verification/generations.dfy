/** The two generations of the ledger side by side: for positive amounts the
    legacy and the newer services accept the same deposits, withdrawals and
    internal transfers and leave the same balances. (Their external transfers
    differ: compare `LegacyLedger.ExternalTransferMoves` with
    `Ledger.ExternalTransferDebitsOrigin`.) */
module Generations {
  import opened Common
  import opened Bank
  import opened Requests
  import LegacyLedger
  import opened Ledger

  /** The legacy request with the same fields. */
  function AsMovimiento(req: MovementRequest): MovimientoRequest {
    MovimientoRequest(req.accountNumber, req.amount, req.description, req.kind)
  }

  /** The two description rules choose differently exactly for a non-empty
      description made only of characters up to the space: the newer service keeps
      it, the legacy one trims it to nothing and falls back. */
  lemma DescriptionRulesDiffer(d: Option<string>, fallback: string)
    ensures DescriptionUnlessEmpty(d, fallback) != LegacyLedger.DescriptionOr(d, fallback) <==>
      d.Some? && |d.value| > 0 && IsBlank(d.value) && d.value != fallback
  {
  }

  /** For a positive amount the two deposits accept the same requests and leave
      the same balances; their movements differ at most in the description. */
  lemma {:induction false} DepositsAgree(b: Bank, req: MovementRequest, userId: UserId, today: Date)
    requires req.amount.Some? && req.amount.value > 0
    ensures var r := Deposit(b, req, userId, today);
      var l := LegacyLedger.Deposit(b, AsMovimiento(req), userId, today);
      && (r.Ok? <==> l.Ok?)
      && (r.Ok? ==> forall n :: Balance(r.value.bank, n) == Balance(l.value.bank, n))
      && (r.Ok? ==> r.value.movements[0].(description := "") == l.value.movements[0].(description := ""))
  {
    var r := Deposit(b, req, userId, today);
    var l := LegacyLedger.Deposit(b, AsMovimiento(req), userId, today);
    if r.Ok? {
      var n := req.accountNumber.value;
      assert OnlyMoved(b, r.value.bank, n, req.amount.value) && OnlyMoved(b, l.value.bank, n, req.amount.value);
    }
  }

  /** The same for withdrawals. */
  lemma {:induction false} WithdrawalsAgree(b: Bank, req: MovementRequest, userId: UserId, today: Date)
    requires req.amount.Some? && req.amount.value > 0
    ensures var r := Withdraw(b, req, userId, today);
      var l := LegacyLedger.Withdraw(b, AsMovimiento(req), userId, today);
      && (r.Ok? <==> l.Ok?)
      && (r.Ok? ==> forall n :: Balance(r.value.bank, n) == Balance(l.value.bank, n))
      && (r.Ok? ==> r.value.movements[0].(description := "") == l.value.movements[0].(description := ""))
  {
    WithdrawalsAcceptAlike(b, req, userId, today);
    if Withdraw(b, req, userId, today).Ok? {
      WithdrawAccepted(b, req, userId, today);
      LegacyLedger.WithdrawAccepted(b, AsMovimiento(req), userId, today);
      SameMoves(b, Withdraw(b, req, userId, today).value.bank,
                LegacyLedger.Withdraw(b, AsMovimiento(req), userId, today).value.bank, req.accountNumber.value, -req.amount.value);
    }
  }

  /** The two withdrawals refuse the same requests. */
  lemma WithdrawalsAcceptAlike(b: Bank, req: MovementRequest, userId: UserId, today: Date)
    requires req.amount.Some? && req.amount.value > 0
    ensures Withdraw(b, req, userId, today).Ok? <==> LegacyLedger.Withdraw(b, AsMovimiento(req), userId, today).Ok?
  {
  }

  /** The legacy request with the same fields. */
  function AsTransferencia(req: TransferRequest): TransferenciaRequest {
    TransferenciaRequest(req.originAccountNumber, req.destinationAccountNumber, req.amount, req.description)
  }

  /** For a positive amount the two internal transfers accept the same requests
      (though they check in different orders) and leave the same balances. */
  lemma {:induction false} TransfersAgree(b: Bank, req: TransferRequest, userId: UserId, today: Date)
    requires req.amount.Some? && req.amount.value > 0
    ensures var r := Transfer(b, req, userId, today);
      var l := LegacyLedger.Transfer(b, AsTransferencia(req), userId, today);
      && (r.Ok? <==> l.Ok?)
      && (r.Ok? ==> forall n :: Balance(r.value.bank, n) == Balance(l.value.bank, n))
  {
    var r := Transfer(b, req, userId, today);
    var l := LegacyLedger.Transfer(b, AsTransferencia(req), userId, today);
    if r.Ok? {
      var from := req.originAccountNumber.value;
      var to := req.destinationAccountNumber.value;
      var amount := req.amount.value;
      assert TwoMoved(b, r.value.bank, from, to, amount) && TwoMoved(b, l.value.bank, from, to, amount);
    }
  }
}
