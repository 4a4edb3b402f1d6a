/** What the login service promises across calls, proved about its step functions. */
module LoginProperties {
  import opened Optional
  import opened LoginService

  /** While locked out, the outcome and the store do not depend on the credentials given. */
  lemma BlockedLoginIgnoresCredentials(s: Store, now: int,
                                       u1: string, p1: string, x1: string,
                                       u2: string, p2: string, x2: string)
    requires IsBlocked(s, now)
    ensures LoginStep(s, u1, p1, now, x1) == LoginStep(s, u2, p2, now, x2)
    ensures LoginStep(s, u1, p1, now, x1) == (s, Throttled(RemainingSeconds(s, now)))
  {
  }

  /** After a successful login at `now`, `isAuthenticated` at `t` says yes exactly until the expiry instant. */
  lemma SessionValidUntilExpiry(s: Store, now: int, suffix: string, t: int)
    requires !IsBlocked(s, now)
    ensures var started := LoginStep(s, Username, Password, now, suffix).0;
      && started.attempts == None && started.blockedUntil == None
      && started.expiresAt == Some(now + SessionMs)
      && (CheckStep(started, t).1 <==> t <= now + SessionMs)
  {
  }

  /** A lockout entered at `now` lets the next wrong attempt after it ends count from zero again. */
  lemma CountRestartsAfterLockout(s: Store, u: string, p: string, now: int, x: string,
                                  u2: string, p2: string, later: int, x2: string)
    requires LoginStep(s, u, p, now, x).1.AccountLocked?
    requires !Verify(u2, p2) && later >= now + BlockMs
    ensures var locked := LoginStep(s, u, p, now, x).0;
      LoginStep(locked, u2, p2, later, x2) == (locked.(attempts := Some(1)), InvalidCredentials)
  {
  }

  /** Logging out twice is logging out once, and afterwards no one is authenticated. */
  lemma LogoutIdempotent(s: Store, now: int)
    ensures LogoutStep(LogoutStep(s)) == LogoutStep(s)
    ensures CheckStep(LogoutStep(s), now) == (LogoutStep(s), false)
  {
  }

  /** A second `isAuthenticated` at the same instant gives the same answer and leaves the same store. */
  lemma CheckIdempotent(s: Store, now: int)
    ensures var first := CheckStep(s, now);
      CheckStep(first.0, now) == first
  {
  }

  /**
   * Three wrong logins at `t` on a first-run store: two plain rejections with
   * the counter at 1 then 2, then a lockout; one second later the call is
   * throttled with 29 seconds left. Clock readings are epoch milliseconds,
   * never negative (an absent `blockedUntil` reads as 0).
   */
  lemma ThreeFailuresScenario(t: int)
    requires t >= 0
    ensures var (s1, o1) := LoginStep(EmptyStore, Username, "wrong", t, "");
      var (s2, o2) := LoginStep(s1, Username, "wrong", t, "");
      var (s3, o3) := LoginStep(s2, Username, "wrong", t, "");
      var (s4, o4) := LoginStep(s3, Username, Password, t + 1_000, "");
      && o1 == InvalidCredentials && s1.attempts == Some(1)
      && o2 == InvalidCredentials && s2.attempts == Some(2)
      && o3 == AccountLocked && s3.attempts == None && s3.blockedUntil == Some(t + 30_000)
      && o4 == Throttled(29) && s4 == s3
  {
    assert !Verify(Username, "wrong") by { assert |"wrong"| != |Password|; }
    var s1 := EmptyStore.(attempts := Some(1));
    assert LoginStep(EmptyStore, Username, "wrong", t, "") == (s1, InvalidCredentials);
    var s2 := EmptyStore.(attempts := Some(2));
    assert LoginStep(s1, Username, "wrong", t, "") == (s2, InvalidCredentials);
    var s3 := EmptyStore.(blockedUntil := Some(t + 30_000));
    assert LoginStep(s2, Username, "wrong", t, "") == (s3, AccountLocked);
    assert RemainingSeconds(s3, t + 1_000) == 29;
  }

  /** One call to an entry point, with the instant it is made at. */
  datatype Call =
    | LoginCall(username: string, password: string, now: int, suffix: string)
    | CheckCall(now: int)
    | LogoutCall

  function Apply(s: Store, c: Call): Store {
    match c
    case LoginCall(u, p, now, x) => LoginStep(s, u, p, now, x).0
    case CheckCall(now) => CheckStep(s, now).0
    case LogoutCall => LogoutStep(s)
  }

  /** The store after the calls, in order. */
  function Run(s: Store, calls: seq<Call>): Store
    decreases |calls|
  {
    if calls == [] then s else Run(Apply(s, calls[0]), calls[1..])
  }

  /** A call that presents the right credentials. */
  predicate PresentsCredentials(c: Call) {
    c.LoginCall? && Verify(c.username, c.password)
  }

  /** Every sequence of calls keeps the counter within bounds and the session keys all-or-nothing. */
  lemma {:induction false} RunPreservesValid(s: Store, calls: seq<Call>)
    requires ValidStore(s)
    ensures ValidStore(Run(s, calls))
    decreases |calls|
  {
    if calls != [] {
      var next := Apply(s, calls[0]);
      assert ValidStore(next) by {
        match calls[0]
        case LoginCall(u, p, now, x) =>
        case CheckCall(now) =>
        case LogoutCall =>
      }
      RunPreservesValid(next, calls[1..]);
    }
  }

  /**
   * Without a call that presents the right credentials, the session is never
   * created or extended: it stays as it was or is cleared.
   */
  lemma {:induction false} NoSessionWithoutCredentials(s: Store, calls: seq<Call>)
    requires forall i :: 0 <= i < |calls| ==> !PresentsCredentials(calls[i])
    ensures SameSession(Run(s, calls), s) || NoSession(Run(s, calls))
    decreases |calls|
  {
    if calls != [] {
      var next := Apply(s, calls[0]);
      assert SameSession(next, s) || NoSession(next) by {
        match calls[0]
        case LoginCall(u, p, now, x) => assert !PresentsCredentials(calls[0]);
        case CheckCall(now) =>
        case LogoutCall =>
      }
      assert forall i :: 0 <= i < |calls[1..]| ==> !PresentsCredentials(calls[1..][i]) by {
        forall i | 0 <= i < |calls[1..]| ensures !PresentsCredentials(calls[1..][i]) {
          assert calls[1..][i] == calls[i + 1];
        }
      }
      NoSessionWithoutCredentials(next, calls[1..]);
    }
  }
}
