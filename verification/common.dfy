/** Shared vocabulary of the banking model: optional values, the exceptions the
    services throw, and the few string rules (blank, empty) that the services and
    the request validators both rely on. */
module Common {

  /** Java's nullable reference: `None` plays the role of `null`. */
  datatype Option<+T> = None | Some(value: T) {
    function GetOr(default: T): T {
      match this
      case Some(v) => v
      case None => default
    }
  }

  /** The exception classes the services throw. */
  datatype Exception =
    | RuntimeException
    | IllegalArgumentException
    | UsernameNotFoundException
    | DataIntegrityViolation
    | NullPointerException
    | InvalidDataAccessApiUsage

  /** Why an operation was refused; one constructor per guard of the services. */
  datatype Reason =
    | UserNotFound
    | AccountNotOwned
    | OriginNotOwned
    | DestinationNotOwned
    | DestinationMissing
    | SameAccount
    | NonPositiveAmount
    | InsufficientFunds
    | DuplicateEmail
    | DuplicateDpi
    | NullColumn
    | NullArgument
    | ValueTooLong
    | TransientRole

  datatype Error = Error(exception: Exception, reason: Reason)

  /** An operation either completes with a value or throws. */
  datatype Result<+T> = Ok(value: T) | Err(error: Error)

  /** Amounts and balances in cents: the columns are BigDecimal with scale 2. */
  type Cents = int

  /** A LocalDate / LocalDateTime as an ordinal; only its order matters here. */
  type Date = int

  /** Movement kinds; the legacy service names them INGRESO/EGRESO, the newer one INCOME/EXPENSE. */
  datatype Kind = Income | Expense

  function LegacyKindName(k: Kind): string {
    match k
    case Income => "INGRESO"
    case Expense => "EGRESO"
  }

  /** `Enum.name()` of the newer MovementType. */
  function KindName(k: Kind): (r: string)
    ensures r == "INCOME" <==> k == Income
    ensures r == "EXPENSE" <==> k == Expense
  {
    match k
    case Income => "INCOME"
    case Expense => "EXPENSE"
  }

  /** `s.trim().isEmpty()`: `String.trim` strips every character up to U+0020,
      so a string is blank when it has no character above the space. */
  predicate IsBlank(s: string) {
    forall i :: 0 <= i < |s| ==> s[i] <= ' '
  }

  /** Jakarta `@NotBlank`: not null and not blank. */
  predicate NotBlank(o: Option<string>) {
    o.Some? && !IsBlank(o.value)
  }

  /** A value the database stores in a `@Column(length = n)` column; a longer one
      is refused when the row is inserted. */
  predicate FitsColumn(s: string, length: nat) {
    |s| <= length
  }

  /** `String.format("%s", o)`: a null argument is rendered as "null". */
  function FormatArg(o: Option<string>): string {
    o.GetOr("null")
  }

  /** The reason suffix of external-transfer descriptions: "Motivo: " and the
      description when it is non-null and non-empty, else nothing. */
  function Motive(d: Option<string>): string {
    if d.Some? && |d.value| > 0 then "Motivo: " + d.value else ""
  }

  /** First index of `x` in `s`, if any. */
  function IndexOf<T(==)>(s: seq<T>, x: T): (r: Option<nat>)
    ensures r.Some? ==> r.value < |s| && s[r.value] == x
    ensures r.Some? ==> forall j :: 0 <= j < r.value ==> s[j] != x
    ensures r.None? <==> x !in s
  {
    if |s| == 0 then None
    else if s[0] == x then Some(0)
    else
      match IndexOf(s[1..], x)
      case None => None
      case Some(i) => Some(i + 1)
  }

  /** Whether no value occurs twice in `s`. */
  predicate Distinct<T(==)>(s: seq<T>) {
    forall i, j :: 0 <= i < j < |s| ==> s[i] != s[j]
  }

  /** In a sequence without repeats, the first index of an element is its only index. */
  lemma {:induction false} IndexOfDistinct<T>(s: seq<T>, i: nat)
    requires Distinct(s)
    requires i < |s|
    ensures IndexOf(s, s[i]) == Some(i)
  {
    assert s[i] in s;
  }
}
