/**
 * The login rate limiter and session ledger of src/services/LoginService.js.
 *
 * The browser's key/value store holds five keys: `attempts`, `blockedUntil`,
 * `authToken`, `user` and `expiresAt`. `Store` is that store as a value, the
 * functions `LoginStep`, `CheckStep` and `LogoutStep` say what each entry point
 * does to it, and the class `Ledger` holds the five keys as fields that its
 * methods update one `setItem`/`removeItem` at a time.
 */
module LoginService {
  import opened Optional
  import opened Decimal

  /** The one accepted credential pair. */
  const Username: string := "admin"
  const Password: string := "123456"

  /** Failed logins that trigger a lockout. */
  const MaxAttempts: int := 3
  /** Lockout length, in milliseconds. */
  const BlockMs: int := 30_000
  /** Session length, in milliseconds (two hours). */
  const SessionMs: int := 2 * 60 * 60 * 1000
  /** Every issued token starts with this; the rest is random. */
  const TokenPrefix: string := "mock-jwt-"

  /** The five persisted keys; `None` is a key that is not in the store. */
  datatype Store = Store(
    attempts: Option<int>,
    blockedUntil: Option<int>,
    authToken: Option<string>,
    user: Option<string>,
    expiresAt: Option<int>)

  /** The store on first run. */
  const EmptyStore: Store := Store(None, None, None, None, None)

  /** How the source reads a numeric key: `parseInt(getItem(k) || '0')`, so an absent key reads as 0. */
  function StoredInt(o: Option<int>): int {
    o.GetOr(0)
  }

  /** JavaScript truthiness of a string key: present and not the empty string. */
  predicate Present(o: Option<string>) {
    o.Some? && o.value != ""
  }

  /** The outcome of one `login` call: the resolved value or one of the three rejections. */
  datatype LoginOutcome =
    | Success(user: string, token: string, expiresAt: int)
    | Throttled(seconds: nat)
    | AccountLocked
    | InvalidCredentials

  /** How the message of a throttled attempt begins; the seconds and an `s` follow. */
  const ThrottledPrefix: string := "Demasiados intentos. Intenta en "

  /**
   * The rejection message the caller shows for a failed attempt. Only a
   * throttled attempt's message has the throttle prefix, and the seconds left
   * can be read back from it.
   */
  function Message(o: LoginOutcome): (m: string)
    requires !o.Success?
    ensures o.Throttled? <==> |ThrottledPrefix| < |m| && m[..|ThrottledPrefix|] == ThrottledPrefix
    ensures o.Throttled? ==> |ThrottledPrefix| < |m| && Value(m[|ThrottledPrefix|..|m| - 1]) == o.seconds
  {
    match o
    case Throttled(secs) =>
      var m := ThrottledPrefix + Show(secs) + "s";
      assert m[|ThrottledPrefix|..|m| - 1] == Show(secs);
      ValueOfShow(secs);
      m
    case AccountLocked =>
      var m := "Cuenta bloqueada temporalmente";
      assert m[0] != ThrottledPrefix[0];
      m
    case InvalidCredentials =>
      var m := "Credenciales inválidas";
      assert m[0] != ThrottledPrefix[0];
      m
  }

  /** Different rejections show different messages, so the caller can tell them apart. */
  lemma MessageInjective(a: LoginOutcome, b: LoginOutcome)
    requires !a.Success? && !b.Success?
    requires Message(a) == Message(b)
    ensures a == b
  {
    if a.Throttled? || b.Throttled? {
      assert a.Throttled? && b.Throttled?;
    } else if a != b {
      assert |Message(a)| != |Message(b)|;
    }
  }

  /** The credential check: exact match on both fields. */
  predicate Verify(username: string, password: string) {
    username == Username && password == Password
  }

  /** A lockout is active while `now` is before `blockedUntil`. */
  predicate IsBlocked(s: Store, now: int) {
    now < StoredInt(s.blockedUntil)
  }

  /** `Math.ceil(ms / 1000)` for a positive `ms`: the least whole number of seconds covering `ms`. */
  function CeilSeconds(ms: int): (secs: nat)
    requires ms > 0
    ensures secs >= 1
    ensures (secs - 1) * 1000 < ms <= secs * 1000
  {
    (ms + 999) / 1000
  }

  /** The seconds left in an active lockout. */
  function RemainingSeconds(s: Store, now: int): (secs: nat)
    requires IsBlocked(s, now)
    ensures secs >= 1
    ensures (secs - 1) * 1000 < StoredInt(s.blockedUntil) - now <= secs * 1000
  {
    CeilSeconds(StoredInt(s.blockedUntil) - now)
  }

  /** The store holds no session key. */
  predicate NoSession(s: Store) {
    s.authToken.None? && s.user.None? && s.expiresAt.None?
  }

  /** The session keys of `a` and `b` agree. */
  predicate SameSession(a: Store, b: Store) {
    a.authToken == b.authToken && a.user == b.user && a.expiresAt == b.expiresAt
  }

  /** The rate-limit keys of `a` and `b` agree. */
  predicate SameThrottle(a: Store, b: Store) {
    a.attempts == b.attempts && a.blockedUntil == b.blockedUntil
  }

  /**
   * What the entry points keep true of the store: the counter stays between 0
   * and 2, the three session keys are present or absent together, and a
   * session belongs to the fixed user and carries a token of the issued form.
   */
  predicate ValidStore(s: Store) {
    && 0 <= StoredInt(s.attempts) < MaxAttempts
    && (s.authToken.Some? <==> s.user.Some?)
    && (s.user.Some? <==> s.expiresAt.Some?)
    && (s.user.Some? ==> s.user.value == Username)
    && (s.authToken.Some? ==> TokenPrefix <= s.authToken.value)
  }

  /** The store right after a successful login at `now` with token `token`. */
  function OpenedSession(username: string, token: string, now: int): Store {
    Store(None, None, Some(token), Some(username), Some(now + SessionMs))
  }

  /**
   * `login(username, password)` at time `now`, with `suffix` the random part of
   * the token it would issue: the new store and the outcome.
   */
  function LoginStep(s: Store, username: string, password: string, now: int, suffix: string): (r: (Store, LoginOutcome))
    // a lockout refuses the call outright, changing nothing
    ensures r.1.Throttled? <==> IsBlocked(s, now)
    ensures r.1.Throttled? ==> r.0 == s && r.1.seconds == RemainingSeconds(s, now)
    // a session is opened exactly for the right pair outside a lockout
    ensures r.1.Success? <==> !IsBlocked(s, now) && Verify(username, password)
    ensures r.1.Success? ==>
      && r.1 == Success(username, TokenPrefix + suffix, now + SessionMs)
      && r.0 == OpenedSession(username, TokenPrefix + suffix, now)
    // a failed attempt counts, and the third one in a row locks the account
    ensures !IsBlocked(s, now) && !Verify(username, password) ==>
      (r.1.AccountLocked? <==> StoredInt(s.attempts) + 1 >= MaxAttempts)
    ensures r.1.InvalidCredentials? ==>
      r.0.attempts == Some(StoredInt(s.attempts) + 1) && r.0.blockedUntil == s.blockedUntil
    ensures r.1.AccountLocked? ==> r.0.attempts == None && r.0.blockedUntil == Some(now + BlockMs)
    // a failed attempt never touches the session
    ensures !r.1.Success? ==> SameSession(r.0, s)
    ensures ValidStore(s) ==> ValidStore(r.0)
  {
    var blockedUntil := StoredInt(s.blockedUntil);
    if now < blockedUntil then
      (s, Throttled(CeilSeconds(blockedUntil - now)))
    else if Verify(username, password) then
      var token := TokenPrefix + suffix;
      (OpenedSession(username, token, now), Success(username, token, now + SessionMs))
    else
      var att := StoredInt(s.attempts) + 1;
      if att >= MaxAttempts then
        (s.(attempts := None, blockedUntil := Some(now + BlockMs)), AccountLocked)
      else
        (s.(attempts := Some(att)), InvalidCredentials)
  }

  /** `logout()`: removes the three session keys and nothing else. */
  function LogoutStep(s: Store): (r: Store)
    ensures NoSession(r)
    ensures SameThrottle(r, s)
  {
    s.(authToken := None, user := None, expiresAt := None)
  }

  /**
   * `isAuthenticated()` at time `now`: the new store and the answer. The answer
   * is yes exactly for a present token and user whose expiry is not yet past; an
   * expired session is logged out on the way.
   */
  function CheckStep(s: Store, now: int): (r: (Store, bool))
    ensures r.1 <==> Present(s.authToken) && Present(s.user) && now <= StoredInt(s.expiresAt)
    ensures !Present(s.authToken) || !Present(s.user) || r.1 ==> r.0 == s
    ensures Present(s.authToken) && Present(s.user) && !r.1 ==> r.0 == LogoutStep(s)
    ensures SameThrottle(r.0, s)
    ensures ValidStore(s) ==> ValidStore(r.0)
  {
    if !Present(s.authToken) || !Present(s.user) then (s, false)
    else if now > StoredInt(s.expiresAt) then (LogoutStep(s), false)
    else (s, true)
  }

  /** The persisted store, one field per key; its methods are the service's entry points. */
  class Ledger {
    var attempts: Option<int>
    var blockedUntil: Option<int>
    var authToken: Option<string>
    var user: Option<string>
    var expiresAt: Option<int>

    /** The store as a value. */
    function Snapshot(): Store
      reads this
    {
      Store(attempts, blockedUntil, authToken, user, expiresAt)
    }

    ghost predicate Valid()
      reads this
    {
      ValidStore(Snapshot())
    }

    /** A store on first run: no key is present. */
    constructor ()
      ensures Snapshot() == EmptyStore && Valid()
    {
      attempts, blockedUntil := None, None;
      authToken, user, expiresAt := None, None, None;
    }

    /** `login(username, password)` at `now`; `suffix` is the random part of the token. */
    method Login(username: string, password: string, now: int, suffix: string) returns (outcome: LoginOutcome)
      modifies this
      ensures (Snapshot(), outcome) == LoginStep(old(Snapshot()), username, password, now, suffix)
      ensures old(Valid()) ==> Valid()
    {
      var blocked := StoredInt(blockedUntil);
      if now < blocked {
        return Throttled(CeilSeconds(blocked - now));
      }
      if username == Username && password == Password {
        var token := TokenPrefix + suffix;
        var expires := now + SessionMs;
        authToken := Some(token);
        user := Some(username);
        expiresAt := Some(expires);
        attempts := None;
        blockedUntil := None;
        return Success(username, token, expires);
      }
      var att := StoredInt(attempts) + 1;
      attempts := Some(att);
      if att >= MaxAttempts {
        blockedUntil := Some(now + BlockMs);
        attempts := None;
        return AccountLocked;
      }
      return InvalidCredentials;
    }

    /** `logout()`. */
    method Logout()
      modifies this
      ensures Snapshot() == LogoutStep(old(Snapshot()))
      ensures old(Valid()) ==> Valid()
    {
      authToken := None;
      user := None;
      expiresAt := None;
    }

    /** `isAuthenticated()` at `now`. */
    method IsAuthenticated(now: int) returns (authenticated: bool)
      modifies this
      ensures (Snapshot(), authenticated) == CheckStep(old(Snapshot()), now)
      ensures old(Valid()) ==> Valid()
    {
      var token := authToken;
      var name := user;
      var expires := StoredInt(expiresAt);
      if !Present(token) || !Present(name) {
        return false;
      }
      if now > expires {
        Logout();
        return false;
      }
      return true;
    }
  }
}
