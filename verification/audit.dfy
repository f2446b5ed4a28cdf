/** Both `AuditLoginEventListener`s: the client address a login is attributed to, and
    the access records written on successful and failed logins. The current request
    (if any), the clock and the access table are inputs; a record names its user by id. */
module Audit {
  import opened Common
  import opened Bank
  import opened Registration

  const NoRequestContext: string := "N/A (No Request Context)"
  const UnknownAddress: string := "UNKNOWN"

  /** `RequestContextHolder.currentRequestAttributes()`: either no request is bound to
      the thread, or one with these header values (`getHeader`, null when absent) and
      remote address. */
  datatype RequestContext =
    | NoRequest
    | Request(forwardedFor: Option<string>, proxyClientIp: Option<string>,
              wlProxyClientIp: Option<string>, remoteAddr: Option<string>)

  /** One `String.equalsIgnoreCase` step: the characters are equal, or equal after
      upper-casing, or after lower-casing the upper-cased forms. For the letters of
      "unknown" that admits the ASCII case pair and, for 'k', the Kelvin sign U+212A. */
  predicate SameLetterIgnoringCase(lower: char, c: char)
    requires lower in "unknown"
  {
    c == lower || c as int == lower as int - 32 || (lower == 'k' && c == '\U{212A}')
  }

  /** `"unknown".equalsIgnoreCase(s)`. */
  predicate IsUnknown(s: string) {
    |s| == 7 && forall i :: 0 <= i < 7 ==> SameLetterIgnoringCase("unknown"[i], s[i])
  }

  /** A header value the chain moves past: null, empty, or "unknown" in any case. */
  predicate Unusable(h: Option<string>) {
    h.None? || |h.value| == 0 || IsUnknown(h.value)
  }

  /** `getClientIpAddress`, step by step as written: each header replaces the previous
      candidate while the candidate is unusable; the remote address is taken unfiltered;
      a null result becomes "UNKNOWN"; no request gives the no-context marker. */
  function ClientIp(ctx: RequestContext): (r: string)
    ensures ctx.NoRequest? ==> r == NoRequestContext
    ensures ctx.Request? ==> r == FirstUsable(
      [ctx.forwardedFor, ctx.proxyClientIp, ctx.wlProxyClientIp], ctx.remoteAddr).GetOr(UnknownAddress)
  {
    match ctx
    case NoRequest => NoRequestContext
    case Request(xff, proxy, wl, remote) =>
      var first := xff;
      var second := if Unusable(first) then proxy else first;
      var third := if Unusable(second) then wl else second;
      var ip := if Unusable(third) then remote else third;
      assert [xff, proxy, wl][1..] == [proxy, wl] && [proxy, wl][1..] == [wl] && [wl][1..] == [];
      assert FirstUsable([wl], remote) == if Unusable(wl) then remote else wl;
      assert FirstUsable([proxy, wl], remote) == if Unusable(proxy) then FirstUsable([wl], remote) else proxy;
      assert FirstUsable([xff, proxy, wl], remote) == if Unusable(xff) then FirstUsable([proxy, wl], remote) else xff;
      if ip.Some? then ip.value else UnknownAddress
  }

  /** Reference definition of the fallback: the first usable header in order, else the
      last resort as it is. */
  function FirstUsable(headers: seq<Option<string>>, lastResort: Option<string>): (r: Option<string>)
    ensures r == lastResort || exists i :: 0 <= i < |headers| && r == headers[i] && !Unusable(headers[i])
    ensures forall i :: 0 <= i < |headers| && !Unusable(headers[i]) && (forall j :: 0 <= j < i ==> Unusable(headers[j])) ==>
      r == headers[i]
    ensures (forall i :: 0 <= i < |headers| ==> Unusable(headers[i])) ==> r == lastResort
  {
    if |headers| == 0 then lastResort
    else if !Unusable(headers[0]) then headers[0]
    else
      var r := FirstUsable(headers[1..], lastResort);
      assert forall i :: 1 <= i < |headers| ==> headers[i] == headers[1..][i - 1];
      r
  }

  /** A row of the access table: the user it is attached to (null when none), when,
      what kind of access, and from where. */
  datatype AccessRecord = AccessRecord(user: Option<UserId>, at: Date, accessType: string, ipAddress: string)

  /** The declared length of the `ipAddress` column of both access tables. */
  const IpAddressLength: nat := 45

  /** `save` into an access table. The database refuses a row without a user when the
      user column is non-nullable, and an address longer than its column. */
  function SaveAccess(log: seq<AccessRecord>, rec: AccessRecord, userRequired: bool): (r: Result<seq<AccessRecord>>)
    ensures r.Ok? <==> (!userRequired || rec.user.Some?) && FitsColumn(rec.ipAddress, IpAddressLength)
    ensures r.Ok? ==> r.value == log + [rec]
    ensures userRequired && rec.user.None? ==> r == Err(Error(DataIntegrityViolation, NullColumn))
    ensures (!userRequired || rec.user.Some?) && !FitsColumn(rec.ipAddress, IpAddressLength) ==>
      r == Err(Error(DataIntegrityViolation, ValueTooLong))
  {
    if userRequired && rec.user.None? then Err(Error(DataIntegrityViolation, NullColumn))
    else if !FitsColumn(rec.ipAddress, IpAddressLength) then Err(Error(DataIntegrityViolation, ValueTooLong))
    else Ok(log + [rec])
  }

  // ----- newer listener; `UserAccess.user` is nullable -----

  /** `handleAuthenticationSuccess`: `findByEmail` throws for an address with no user,
      and that exception leaves the listener; otherwise one LOGIN_SUCCESS row for that
      user, unless the client address is too long for its column. */
  function OnSuccess(b: Bank, log: seq<AccessRecord>, username: string, ctx: RequestContext, now: Date)
    : (r: Result<seq<AccessRecord>>)
    ensures r.Err? <==> LoadUserByUsername(b, username).Err? || !FitsColumn(ClientIp(ctx), IpAddressLength)
    ensures LoadUserByUsername(b, username).Err? ==> r.error.exception == UsernameNotFoundException
    ensures LoadUserByUsername(b, username).Ok? && !FitsColumn(ClientIp(ctx), IpAddressLength) ==>
      r == Err(Error(DataIntegrityViolation, ValueTooLong))
    ensures r.Ok? ==> r.value == log + [AccessRecord(Some(LoadUserByUsername(b, username).value.id), now, "LOGIN_SUCCESS", ClientIp(ctx))]
  {
    match LoadUserByUsername(b, username)
    case Err(e) => Err(e)
    case Ok(u) => SaveAccess(log, AccessRecord(Some(u.id), now, "LOGIN_SUCCESS", ClientIp(ctx)), false)
  }

  /** `handleAuthenticationFailure`: an address with no user writes nothing; a known
      user gets exactly one LOGIN_FAILED row attached to them, unless the client
      address is too long for its column. */
  function OnFailure(b: Bank, log: seq<AccessRecord>, username: string, ctx: RequestContext, now: Date)
    : (r: Result<seq<AccessRecord>>)
    ensures LoadUserByUsername(b, username).Err? ==> r == Ok(log)
    ensures r.Err? <==> LoadUserByUsername(b, username).Ok? && !FitsColumn(ClientIp(ctx), IpAddressLength)
    ensures r.Err? ==> r.error == Error(DataIntegrityViolation, ValueTooLong)
    ensures LoadUserByUsername(b, username).Ok? && r.Ok? ==>
      r.value == log + [AccessRecord(Some(LoadUserByUsername(b, username).value.id), now, "LOGIN_FAILED", ClientIp(ctx))]
  {
    match LoadUserByUsername(b, username)
    case Err(_) => Ok(log)
    case Ok(u) => SaveAccess(log, AccessRecord(Some(u.id), now, "LOGIN_FAILED", ClientIp(ctx)), false)
  }

  // ----- legacy listener; `AccesoUsuario.usuario` is non-nullable -----

  /** `handleAuthenticationSuccess` (legacy): the same rule with a LOGIN_EXITOSO row. */
  function LegacyOnSuccess(b: Bank, log: seq<AccessRecord>, username: string, ctx: RequestContext, now: Date)
    : (r: Result<seq<AccessRecord>>)
    ensures r.Err? <==> LoadUserByUsername(b, username).Err? || !FitsColumn(ClientIp(ctx), IpAddressLength)
    ensures LoadUserByUsername(b, username).Err? ==> r.error.exception == UsernameNotFoundException
    ensures r.Ok? ==> r.value == log + [AccessRecord(Some(LoadUserByUsername(b, username).value.id), now, "LOGIN_EXITOSO", ClientIp(ctx))]
  {
    match LoadUserByUsername(b, username)
    case Err(e) => Err(e)
    case Ok(u) => SaveAccess(log, AccessRecord(Some(u.id), now, "LOGIN_EXITOSO", ClientIp(ctx)), true)
  }

  /** The LOGIN_FALLIDO row the legacy failure handler builds: attached to the user when
      the address is known, to no user otherwise. */
  function FailedAttempt(b: Bank, username: string, ctx: RequestContext, now: Date): AccessRecord {
    var user := match LoadUserByUsername(b, username)
      case Ok(u) => Some(u.id)
      case Err(_) => None;
    AccessRecord(user, now, "LOGIN_FALLIDO", ClientIp(ctx))
  }

  /** `handleAuthenticationFailure` (legacy) as written: the row is saved into the
      access table, whose user column is non-nullable. */
  function LegacyOnFailure(b: Bank, log: seq<AccessRecord>, username: string, ctx: RequestContext, now: Date)
    : (r: Result<seq<AccessRecord>>)
    ensures r.Ok? <==> LoadUserByUsername(b, username).Ok? && FitsColumn(ClientIp(ctx), IpAddressLength)
    ensures LoadUserByUsername(b, username).Err? ==> r == Err(Error(DataIntegrityViolation, NullColumn))
    ensures r.Ok? ==> r.value == log + [FailedAttempt(b, username, ctx, now)]
  {
    SaveAccess(log, FailedAttempt(b, username, ctx, now), true)
  }

  /** The legacy failure handler as its comments describe it: every failed attempt is
      recorded, those against unknown addresses without a user, which needs the user
      column to be nullable (as it is in the newer `UserAccess`). */
  function LegacyOnFailureCorrected(b: Bank, log: seq<AccessRecord>, username: string, ctx: RequestContext, now: Date)
    : (r: Result<seq<AccessRecord>>)
    ensures r.Ok? <==> FitsColumn(ClientIp(ctx), IpAddressLength)
    ensures r.Err? ==> r.error == Error(DataIntegrityViolation, ValueTooLong)
    ensures r.Ok? ==> |r.value| == |log| + 1 && r.value[..|log|] == log
    ensures r.Ok? ==> r.value[|log|].accessType == "LOGIN_FALLIDO" && r.value[|log|].ipAddress == ClientIp(ctx)
    ensures r.Ok? ==> (r.value[|log|].user.None? <==> LoadUserByUsername(b, username).Err?)
    ensures r.Ok? && r.value[|log|].user.Some? ==> r.value[|log|].user.value == LoadUserByUsername(b, username).value.id
  {
    SaveAccess(log, FailedAttempt(b, username, ctx, now), false)
  }

  /** As written, a failed login with an address nobody has is never recorded: the
      insert of the user-less row fails, against the handler's stated purpose of
      auditing attempts on non-existent accounts. */
  lemma {:induction false} LegacyFailureOfUnknownIsLost(b: Bank, log: seq<AccessRecord>, username: string, ctx: RequestContext, now: Date)
    requires forall i :: 0 <= i < |b.users| ==> b.users[i].email != username
    ensures LegacyOnFailure(b, log, username, ctx, now) == Err(Error(DataIntegrityViolation, NullColumn))
  {
    assert LoadUserByUsername(b, username).Err?;
  }

  /** A concrete case: with no users at all, a failed login as "a@b.c" raises instead of
      leaving a LOGIN_FALLIDO row, while the corrected handler leaves one. */
  lemma LegacyFailureCounterexample()
    ensures LegacyOnFailure(Bank([], [], []), [], "a@b.c", NoRequest, 0).Err?
    ensures LegacyOnFailureCorrected(Bank([], [], []), [], "a@b.c", NoRequest, 0)
      == Ok([AccessRecord(None, 0, "LOGIN_FALLIDO", NoRequestContext)])
  {
    LegacyFailureOfUnknownIsLost(Bank([], [], []), [], "a@b.c", NoRequest, 0);
  }

  /** `X-Forwarded-For` is stored as sent, without splitting the proxy chain: a chain
      longer than the column makes every listener's insert fail, so a successful login
      from a known user is not recorded. */
  lemma {:induction false} LongForwardedChainIsRefused(b: Bank, log: seq<AccessRecord>, username: string,
      chain: string, proxy: Option<string>, wl: Option<string>, remote: Option<string>, now: Date)
    requires |chain| > IpAddressLength
    ensures ClientIp(Request(Some(chain), proxy, wl, remote)) == chain
    ensures OnSuccess(b, log, username, Request(Some(chain), proxy, wl, remote), now).Err?
    ensures LegacyOnSuccess(b, log, username, Request(Some(chain), proxy, wl, remote), now).Err?
    ensures OnFailure(b, log, username, Request(Some(chain), proxy, wl, remote), now).Ok? <==>
      LoadUserByUsername(b, username).Err?
  {
    assert !Unusable(Some(chain));
  }
}
