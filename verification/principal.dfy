/** The user as Spring Security sees it (`User` as `UserDetails`) and the page
    `RolAccess` sends an authenticated user to. */
module Principal {
  import opened Bank

  const DefaultRole: string := "ROLE_USER"
  const AdminRole: string := "ROLE_ADMIN"

  const AdminPage: string := "/dashboard/admin"
  const UserPage: string := "/dashboard/user"
  const FallbackPage: string := "/dashboard"

  /** `getAuthorities`: the stored role names when there are any, else the default role. */
  function Authorities(u: User): (r: seq<string>)
    ensures |r| >= 1
    ensures u.roles.Some? && |u.roles.value| > 0 ==> r == u.roles.value
    ensures u.roles.None? || |u.roles.value| == 0 ==> r == [DefaultRole]
  {
    if u.roles.Some? && |u.roles.value| > 0 then u.roles.value else [DefaultRole]
  }

  /** `getUsername`: users sign in with their e-mail address. */
  function Username(u: User): string {
    u.email
  }

  /** `isAccountNonExpired`, `isAccountNonLocked`, `isCredentialsNonExpired` and
      `isEnabled` all answer true whatever the user, so no account is ever locked out. */
  predicate AccountNonExpired(u: User) { true }
  predicate AccountNonLocked(u: User) { true }
  predicate CredentialsNonExpired(u: User) { true }
  predicate Enabled(u: User) { true }

  /** `onAuthenticationSuccess`: the first authority, in iteration order, that is the
      admin or the user role picks the page; without one the fallback page is used.
      Names are compared exactly. */
  function Redirect(authorities: seq<string>): (r: string)
    ensures r == AdminPage <==>
      exists i :: 0 <= i < |authorities| && authorities[i] == AdminRole
        && forall j :: 0 <= j < i ==> authorities[j] != AdminRole && authorities[j] != DefaultRole
    ensures r == UserPage <==>
      exists i :: 0 <= i < |authorities| && authorities[i] == DefaultRole
        && forall j :: 0 <= j < i ==> authorities[j] != AdminRole && authorities[j] != DefaultRole
    ensures r == FallbackPage <==>
      forall i :: 0 <= i < |authorities| ==> authorities[i] != AdminRole && authorities[i] != DefaultRole
  {
    if |authorities| == 0 then FallbackPage
    else if authorities[0] == AdminRole then AdminPage
    else if authorities[0] == DefaultRole then UserPage
    else
      var r := Redirect(authorities[1..]);
      assert forall i :: 1 <= i <= |authorities[1..]| ==> authorities[i] == authorities[1..][i - 1];
      r
  }
}
