/** The response DTOs the modelled services and controllers build. */
module Responses {
  import opened Common

  /** Legacy `MovimientoDTO`. */
  datatype MovimientoDto = MovimientoDto(
    id: nat,
    cuentaId: Option<nat>,
    numeroCuenta: string,
    fecha: Date,
    descripcion: string,
    tipo: Kind,
    monto: Cents)

  /** Legacy `TransferenciaExternaResponse`. */
  datatype TransferenciaExternaResponse = TransferenciaExternaResponse(
    mensaje: string,
    nuevoSaldoCuentaOrigen: Cents,
    ultimoMovimientoOrigen: MovimientoDto,
    movimientosRecientes: seq<MovimientoDto>)

  /** Newer `MovementDTO`; `balance` is never set by the services modelled here. */
  datatype MovementDto = MovementDto(
    id: nat,
    accountId: Option<nat>,
    accountNumber: string,
    date: Date,
    description: string,
    kind: Kind,
    amount: Cents,
    balance: Option<Cents>)

  /** Newer `ExternalTransferResponse`. */
  datatype ExternalTransferResponse = ExternalTransferResponse(
    message: string,
    newOriginAccountBalance: Cents,
    lastOriginMovement: MovementDto,
    recentMovements: seq<MovementDto>)

  /** Newer `AdminMovementDTO`: the type is the enum name. */
  datatype AdminMovementDto = AdminMovementDto(
    id: nat,
    date: Date,
    description: string,
    kind: string,
    amount: Cents,
    accountNumber: string,
    userName: string)

  /** Legacy `CuentaDTO`. */
  datatype CuentaDto = CuentaDto(
    id: nat,
    numeroCuenta: string,
    tipoCuenta: string,
    saldo: Cents,
    estado: string,
    fechaCreacion: Date,
    usuarioId: Option<nat>,
    usuarioNombreCompleto: string)

  /** Newer `AccountDTO`. */
  datatype AccountDto = AccountDto(
    id: nat,
    accountNumber: string,
    accountType: string,
    balance: Cents,
    status: string,
    creationDate: Date,
    userId: Option<nat>,
    userName: string)

  /** The values the dashboard endpoint computes for the authenticated user. */
  datatype UserSummary = UserSummary(id: nat, fullName: string, email: string, totalBalance: Cents)

  /** Newer `RegistrationResponse`: the e-mail and the plain generated password. */
  datatype RegistrationResponse = RegistrationResponse(email: string, generatedPassword: string)
}
