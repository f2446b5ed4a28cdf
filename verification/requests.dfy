/** The request DTOs of both generations and their Jakarta Bean Validation
    constraints. Each DTO lists, field by field, the annotations it carries; a
    request is valid when every annotation holds of its field. As in Bean
    Validation, every constraint except `@NotNull`/`@NotBlank` accepts null. */
module Requests {
  import opened Common

  /** The annotations used on the request DTOs. */
  datatype Constraint =
    | NotNull                     // @NotNull
    | NotBlankText                // @NotBlank
    | Size(min: nat, max: nat)    // @Size(min, max)
    | DecimalMinCents(least: Cents) // @DecimalMin(value), inclusive
    | NitPattern                  // @Pattern("^[a-zA-Z0-9-]+$")
    | PhonePattern                // @Pattern("^\\d{4}-\\d{4}$")
    | WellFormedEmail             // @Email
    | PastDate                    // @Past

  /** A field value as the validator sees it. */
  datatype Value =
    | Text(text: Option<string>)
    | Money(cents: Option<Cents>)
    | Day(day: Option<Date>)
    | Unconstrained

  predicate IsDigit(c: char) {
    '0' <= c <= '9'
  }

  predicate IsNitChar(c: char) {
    ('a' <= c <= 'z') || ('A' <= c <= 'Z') || IsDigit(c) || c == '-'
  }

  /** `^[a-zA-Z0-9-]+$` matched against the whole string. */
  predicate MatchesNit(s: string) {
    |s| >= 1 && forall i :: 0 <= i < |s| ==> IsNitChar(s[i])
  }

  /** `^\d{4}-\d{4}$` matched against the whole string (`\d` is ASCII by default). */
  predicate MatchesPhone(s: string) {
    |s| == 9 && s[4] == '-' && forall i :: 0 <= i < 9 && i != 4 ==> IsDigit(s[i])
  }

  /** Whether one annotation accepts one value. `isEmail` is the e-mail syntax check
      of the validation provider and `today` the validation date for `@Past`. */
  predicate Holds(c: Constraint, v: Value, isEmail: string -> bool, today: Date) {
    match c
    case NotNull =>
      (v.Text? && v.text.Some?) || (v.Money? && v.cents.Some?) || (v.Day? && v.day.Some?)
    case NotBlankText => v.Text? && NotBlank(v.text)
    case Size(min, max) => v.Text? && (v.text.None? || min <= |v.text.value| <= max)
    case DecimalMinCents(least) => v.Money? && (v.cents.None? || v.cents.value >= least)
    case NitPattern => v.Text? && (v.text.None? || MatchesNit(v.text.value))
    case PhonePattern => v.Text? && (v.text.None? || MatchesPhone(v.text.value))
    case WellFormedEmail => v.Text? && (v.text.None? || isEmail(v.text.value))
    case PastDate => v.Day? && (v.day.None? || v.day.value < today)
  }

  /** An annotated field: its annotations and its value. */
  datatype Field = Field(constraints: seq<Constraint>, value: Value)

  predicate FieldValid(f: Field, isEmail: string -> bool, today: Date) {
    forall c :: c in f.constraints ==> Holds(c, f.value, isEmail, today)
  }

  predicate AllValid(fs: seq<Field>, isEmail: string -> bool, today: Date) {
    forall f :: f in fs ==> FieldValid(f, isEmail, today)
  }

  /** None of the request DTOs except registration uses `@Email` or `@Past`. */
  function NoEmail(s: string): bool { true }

  // ---------------------------------------------------------------- newer DTOs

  datatype MovementRequest = MovementRequest(
    accountNumber: Option<string>,
    amount: Option<Cents>,
    description: Option<string>,
    kind: Option<Kind>)

  function MovementRequestFields(r: MovementRequest): seq<Field> {
    [ Field([NotBlankText], Text(r.accountNumber)),
      Field([NotNull, DecimalMinCents(1)], Money(r.amount)),
      Field([Size(0, 255)], Text(r.description)),
      Field([], Unconstrained) ]
  }

  predicate ValidMovementRequest(r: MovementRequest) {
    AllValid(MovementRequestFields(r), NoEmail, 0)
  }

  datatype TransferRequest = TransferRequest(
    originAccountNumber: Option<string>,
    destinationAccountNumber: Option<string>,
    amount: Option<Cents>,
    description: Option<string>)

  function TransferRequestFields(r: TransferRequest): seq<Field> {
    [ Field([NotBlankText], Text(r.originAccountNumber)),
      Field([NotBlankText], Text(r.destinationAccountNumber)),
      Field([NotNull, DecimalMinCents(1)], Money(r.amount)),
      Field([Size(0, 255)], Text(r.description)) ]
  }

  predicate ValidTransferRequest(r: TransferRequest) {
    AllValid(TransferRequestFields(r), NoEmail, 0)
  }

  /** The external-transfer request of the newer service; its fields are those the
      service reads (its declaration, and so its constraints, are not part of this model). */
  datatype ExternalTransferRequest = ExternalTransferRequest(
    originAccountNumber: Option<string>,
    destinationAccountNumber: Option<string>,
    destinationName: Option<string>,
    destinationBank: Option<string>,
    amount: Option<Cents>,
    description: Option<string>)

  datatype RegistrationRequest = RegistrationRequest(
    firstName: Option<string>,
    lastName: Option<string>,
    email: Option<string>,
    dpi: Option<string>,
    nit: Option<string>,
    phoneNumber: Option<string>,
    address: Option<string>,
    birthDate: Option<Date>)

  function RegistrationRequestFields(r: RegistrationRequest): seq<Field> {
    [ Field([NotBlankText, Size(2, 50)], Text(r.firstName)),
      Field([NotBlankText, Size(2, 50)], Text(r.lastName)),
      Field([NotBlankText, WellFormedEmail, Size(0, 100)], Text(r.email)),
      Field([NotBlankText, Size(13, 13)], Text(r.dpi)),
      Field([NotBlankText, Size(5, 20), NitPattern], Text(r.nit)),
      Field([NotBlankText, PhonePattern], Text(r.phoneNumber)),
      Field([NotBlankText, Size(10, 255)], Text(r.address)),
      Field([PastDate], Day(r.birthDate)) ]
  }

  predicate ValidRegistrationRequest(r: RegistrationRequest, isEmail: string -> bool, today: Date) {
    AllValid(RegistrationRequestFields(r), isEmail, today)
  }

  // --------------------------------------------------------------- legacy DTOs

  datatype MovimientoRequest = MovimientoRequest(
    numeroCuenta: Option<string>,
    monto: Option<Cents>,
    descripcion: Option<string>,
    tipo: Option<Kind>)

  function MovimientoRequestFields(r: MovimientoRequest): seq<Field> {
    [ Field([NotBlankText], Text(r.numeroCuenta)),
      Field([NotNull, DecimalMinCents(1)], Money(r.monto)),
      Field([Size(0, 255)], Text(r.descripcion)),
      Field([], Unconstrained) ]
  }

  predicate ValidMovimientoRequest(r: MovimientoRequest) {
    AllValid(MovimientoRequestFields(r), NoEmail, 0)
  }

  /** The internal-transfer request of the legacy service; its fields are those the
      service reads (its declaration, and so its constraints, are not part of this model). */
  datatype TransferenciaRequest = TransferenciaRequest(
    numeroCuentaOrigen: Option<string>,
    numeroCuentaDestino: Option<string>,
    monto: Option<Cents>,
    descripcion: Option<string>)

  datatype TransferenciaExternaRequest = TransferenciaExternaRequest(
    cuentaOrigen: Option<string>,
    nombreDestino: Option<string>,
    bancoDestino: Option<string>,
    cuentaDestino: Option<string>,
    monto: Option<Cents>,
    descripcion: Option<string>)

  function TransferenciaExternaRequestFields(r: TransferenciaExternaRequest): seq<Field> {
    [ Field([NotBlankText], Text(r.cuentaOrigen)),
      Field([NotBlankText, Size(0, 100)], Text(r.nombreDestino)),
      Field([NotBlankText, Size(0, 100)], Text(r.bancoDestino)),
      Field([NotBlankText], Text(r.cuentaDestino)),
      Field([NotNull, DecimalMinCents(1)], Money(r.monto)),
      Field([Size(0, 255)], Text(r.descripcion)) ]
  }

  predicate ValidTransferenciaExternaRequest(r: TransferenciaExternaRequest) {
    AllValid(TransferenciaExternaRequestFields(r), NoEmail, 0)
  }

  // ------------------------------------------------- what the annotations mean

  /** Optional text of at most `max` characters. */
  predicate AtMost(o: Option<string>, max: nat) {
    o.None? || |o.value| <= max
  }

  lemma OneConstraint(c: Constraint, v: Value, isEmail: string -> bool, today: Date)
    ensures FieldValid(Field([c], v), isEmail, today) <==> Holds(c, v, isEmail, today)
  {
    assert c in [c];
  }

  lemma TwoConstraints(c0: Constraint, c1: Constraint, v: Value, isEmail: string -> bool, today: Date)
    ensures FieldValid(Field([c0, c1], v), isEmail, today) <==>
      Holds(c0, v, isEmail, today) && Holds(c1, v, isEmail, today)
  {
    assert c0 in [c0, c1] && c1 in [c0, c1];
  }

  lemma ThreeConstraints(c0: Constraint, c1: Constraint, c2: Constraint, v: Value, isEmail: string -> bool, today: Date)
    ensures FieldValid(Field([c0, c1, c2], v), isEmail, today) <==>
      Holds(c0, v, isEmail, today) && Holds(c1, v, isEmail, today) && Holds(c2, v, isEmail, today)
  {
    assert c0 in [c0, c1, c2] && c1 in [c0, c1, c2] && c2 in [c0, c1, c2];
  }

  /** A list of fields is valid exactly when each of its fields is. */
  lemma EveryField(fs: seq<Field>, isEmail: string -> bool, today: Date)
    ensures AllValid(fs, isEmail, today) <==> forall k :: 0 <= k < |fs| ==> FieldValid(fs[k], isEmail, today)
  {
  }

  lemma {:induction false} MovementRequestMeaning(r: MovementRequest)
    ensures ValidMovementRequest(r) <==>
      && NotBlank(r.accountNumber)
      && r.amount.Some? && r.amount.value >= 1
      && AtMost(r.description, 255)
  {
    var fs := MovementRequestFields(r);
    EveryField(fs, NoEmail, 0);
    OneConstraint(NotBlankText, Text(r.accountNumber), NoEmail, 0);
    TwoConstraints(NotNull, DecimalMinCents(1), Money(r.amount), NoEmail, 0);
    OneConstraint(Size(0, 255), Text(r.description), NoEmail, 0);
  }

  lemma {:induction false} TransferRequestMeaning(r: TransferRequest)
    ensures ValidTransferRequest(r) <==>
      && NotBlank(r.originAccountNumber)
      && NotBlank(r.destinationAccountNumber)
      && r.amount.Some? && r.amount.value >= 1
      && AtMost(r.description, 255)
  {
    var fs := TransferRequestFields(r);
    EveryField(fs, NoEmail, 0);
    OneConstraint(NotBlankText, Text(r.originAccountNumber), NoEmail, 0);
    OneConstraint(NotBlankText, Text(r.destinationAccountNumber), NoEmail, 0);
    TwoConstraints(NotNull, DecimalMinCents(1), Money(r.amount), NoEmail, 0);
    OneConstraint(Size(0, 255), Text(r.description), NoEmail, 0);
  }

  lemma {:induction false} MovimientoRequestMeaning(r: MovimientoRequest)
    ensures ValidMovimientoRequest(r) <==>
      && NotBlank(r.numeroCuenta)
      && r.monto.Some? && r.monto.value >= 1
      && AtMost(r.descripcion, 255)
  {
    var fs := MovimientoRequestFields(r);
    EveryField(fs, NoEmail, 0);
    OneConstraint(NotBlankText, Text(r.numeroCuenta), NoEmail, 0);
    TwoConstraints(NotNull, DecimalMinCents(1), Money(r.monto), NoEmail, 0);
    OneConstraint(Size(0, 255), Text(r.descripcion), NoEmail, 0);
  }

  lemma {:induction false} TransferenciaExternaRequestMeaning(r: TransferenciaExternaRequest)
    ensures ValidTransferenciaExternaRequest(r) <==>
      && NotBlank(r.cuentaOrigen)
      && NotBlank(r.nombreDestino) && |r.nombreDestino.value| <= 100
      && NotBlank(r.bancoDestino) && |r.bancoDestino.value| <= 100
      && NotBlank(r.cuentaDestino)
      && r.monto.Some? && r.monto.value >= 1
      && AtMost(r.descripcion, 255)
  {
    var fs := TransferenciaExternaRequestFields(r);
    EveryField(fs, NoEmail, 0);
    OneConstraint(NotBlankText, Text(r.cuentaOrigen), NoEmail, 0);
    TwoConstraints(NotBlankText, Size(0, 100), Text(r.nombreDestino), NoEmail, 0);
    TwoConstraints(NotBlankText, Size(0, 100), Text(r.bancoDestino), NoEmail, 0);
    OneConstraint(NotBlankText, Text(r.cuentaDestino), NoEmail, 0);
    TwoConstraints(NotNull, DecimalMinCents(1), Money(r.monto), NoEmail, 0);
    OneConstraint(Size(0, 255), Text(r.descripcion), NoEmail, 0);
  }

  lemma {:induction false} RegistrationRequestMeaning(r: RegistrationRequest, isEmail: string -> bool, today: Date)
    ensures ValidRegistrationRequest(r, isEmail, today) <==>
      && NotBlank(r.firstName) && 2 <= |r.firstName.value| <= 50
      && NotBlank(r.lastName) && 2 <= |r.lastName.value| <= 50
      && NotBlank(r.email) && isEmail(r.email.value) && |r.email.value| <= 100
      && NotBlank(r.dpi) && |r.dpi.value| == 13
      && NotBlank(r.nit) && 5 <= |r.nit.value| <= 20 && MatchesNit(r.nit.value)
      && NotBlank(r.phoneNumber) && MatchesPhone(r.phoneNumber.value)
      && NotBlank(r.address) && 10 <= |r.address.value| <= 255
      && (r.birthDate.None? || r.birthDate.value < today)
  {
    var fs := RegistrationRequestFields(r);
    EveryField(fs, isEmail, today);
    assert ValidRegistrationRequest(r, isEmail, today) <==>
      FieldValid(fs[0], isEmail, today) && FieldValid(fs[1], isEmail, today) &&
      FieldValid(fs[2], isEmail, today) && FieldValid(fs[3], isEmail, today) &&
      FieldValid(fs[4], isEmail, today) && FieldValid(fs[5], isEmail, today) &&
      FieldValid(fs[6], isEmail, today) && FieldValid(fs[7], isEmail, today);
    IdentityFieldsMeaning(r, isEmail, today);
    ContactFieldsMeaning(r, isEmail, today);
  }

  /** The name, e-mail and DPI fields of a registration. */
  lemma IdentityFieldsMeaning(r: RegistrationRequest, isEmail: string -> bool, today: Date)
    ensures var fs := RegistrationRequestFields(r);
      && (FieldValid(fs[0], isEmail, today) <==> NotBlank(r.firstName) && 2 <= |r.firstName.value| <= 50)
      && (FieldValid(fs[1], isEmail, today) <==> NotBlank(r.lastName) && 2 <= |r.lastName.value| <= 50)
      && (FieldValid(fs[2], isEmail, today) <==> NotBlank(r.email) && isEmail(r.email.value) && |r.email.value| <= 100)
      && (FieldValid(fs[3], isEmail, today) <==> NotBlank(r.dpi) && |r.dpi.value| == 13)
  {
    TwoConstraints(NotBlankText, Size(2, 50), Text(r.firstName), isEmail, today);
    TwoConstraints(NotBlankText, Size(2, 50), Text(r.lastName), isEmail, today);
    ThreeConstraints(NotBlankText, WellFormedEmail, Size(0, 100), Text(r.email), isEmail, today);
    TwoConstraints(NotBlankText, Size(13, 13), Text(r.dpi), isEmail, today);
  }

  /** The NIT, phone, address and birth-date fields of a registration. */
  lemma ContactFieldsMeaning(r: RegistrationRequest, isEmail: string -> bool, today: Date)
    ensures var fs := RegistrationRequestFields(r);
      && (FieldValid(fs[4], isEmail, today) <==> NotBlank(r.nit) && 5 <= |r.nit.value| <= 20 && MatchesNit(r.nit.value))
      && (FieldValid(fs[5], isEmail, today) <==> NotBlank(r.phoneNumber) && MatchesPhone(r.phoneNumber.value))
      && (FieldValid(fs[6], isEmail, today) <==> NotBlank(r.address) && 10 <= |r.address.value| <= 255)
      && (FieldValid(fs[7], isEmail, today) <==> r.birthDate.None? || r.birthDate.value < today)
  {
    ThreeConstraints(NotBlankText, Size(5, 20), NitPattern, Text(r.nit), isEmail, today);
    TwoConstraints(NotBlankText, PhonePattern, Text(r.phoneNumber), isEmail, today);
    TwoConstraints(NotBlankText, Size(10, 255), Text(r.address), isEmail, today);
    OneConstraint(PastDate, Day(r.birthDate), isEmail, today);
  }

  /** The DPI rule checks the length only: thirteen letters pass it. */
  lemma DpiIsLengthOnly()
    ensures Holds(NotBlankText, Text(Some("ABCDEFGHIJKLM")), NoEmail, 0)
    ensures Holds(Size(13, 13), Text(Some("ABCDEFGHIJKLM")), NoEmail, 0)
  {
    assert "ABCDEFGHIJKLM"[0] == 'A';
  }

  /** The phone pattern accepts exactly four digits, a dash and four digits. */
  lemma PhoneShape()
    ensures MatchesPhone("5555-1234")
    ensures !MatchesPhone("55551234")
    ensures !MatchesPhone("5555-12345")
    ensures !MatchesPhone("555a-1234")
  {
    assert "555a-1234"[3] == 'a';
  }
}
