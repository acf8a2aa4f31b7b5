/**
 * The AppRole login / renew lifecycle of main.go as pure functions on a
 * snapshot of the process: `Authenticate` is `authenticateVault`,
 * `KeepRenewing` is `keepRenewingToken` and `Drive` is the endless loop in
 * `main`. The Vault server and the filesystem are a finite script of
 * responses; a run ends when the process exits or the script it needs next
 * is used up.
 */
module Lifecycle {
  import opened Wrappers
  import opened GoTime
  import opened TokenStore

  /** The lease, in seconds, every renewal asks for: `RenewSelf(900)`. */
  const RenewIncrement: int := 900
  /** Seconds taken off each lease to renew ahead of expiry. */
  const RenewMargin: int := 30

  /**
   * What stays fixed for the life of the process: the AppRole role id, the
   * identity sent as secret id (computed once by `Hostname.Identity`), and
   * the process umask the token file is created under.
   */
  datatype Config = Config(roleId: string, identity: string, umask: Perm)

  /** Answer of `Logical().Write("auth/approle/login", ...)`. */
  datatype LoginResponse =
    | LoginError(msg: string)                             // the call returns an error
    | LoginNoAuth                                         // no error, but the secret has no `Auth`
    | LoginAuth(clientToken: string, leaseDuration: int64) // no error and an `Auth` block

  /** One scripted login: the server's answer and what persisting the token would do. */
  datatype LoginStep = LoginStep(response: LoginResponse, persist: PersistOutcome)

  /** Answer of `Auth().Token().RenewSelf(900)`. */
  datatype RenewResponse = RenewError(msg: string) | Renewed(leaseDuration: int64)

  /** Where the driver is: before a login, in the renew loop, or stopped by a fatal error. */
  datatype Phase = LoggedOut | Renewing | Exited

  datatype Error =
    | LoginTransport(msg: string)
    | PersistFailed(cause: PersistError)
    | RenewTransport(msg: string)

  /** What an observer of the process sees: requests to Vault, waits, and the fatal exit. */
  datatype Event =
    | LoginRequest(roleId: string, secretId: string)
    | RenewRequest(token: string, increment: int)
    | Wait(duration: int64)
    | FatalExit(err: Error)

  /**
   * The process state: the client's active token, the token file, the
   * driver's phase, the events so far, and the responses still to come.
   */
  datatype State = State(
    token: string,
    file: TokenFile,
    phase: Phase,
    trace: seq<Event>,
    logins: seq<LoginStep>,
    renewals: seq<RenewResponse>)

  /** `a` is what is left of `b` after dropping some elements from its front. */
  predicate IsSuffix<T(==)>(a: seq<T>, b: seq<T>)
    decreases |b|
  {
    a == b || (|a| < |b| && IsSuffix(a, b[1..]))
  }

  /** A suffix is no longer than the sequence and is what dropping the difference in length leaves. */
  lemma {:induction false} SuffixIsDrop<T>(a: seq<T>, b: seq<T>)
    requires IsSuffix(a, b)
    ensures |a| <= |b| && a == b[|b| - |a|..]
    decreases |b|
  {
    if a != b {
      SuffixIsDrop(a, b[1..]);
    }
  }

  lemma {:induction false} SuffixTransitive<T>(a: seq<T>, b: seq<T>, c: seq<T>)
    requires IsSuffix(a, b) && IsSuffix(b, c)
    ensures IsSuffix(a, c)
    decreases |c|
  {
    if b != c {
      SuffixTransitive(a, b, c[1..]);
      SuffixIsDrop(a, b);
    }
  }

  function Last<T>(s: seq<T>): (x: T)
    requires |s| > 0
    ensures x in s
  {
    s[|s| - 1]
  }

  /**
   * The duration handed to `time.After` after a renewal:
   * `(time.Duration(lease) - 30) * time.Second`, in nanoseconds, with Go's
   * wrap-around on both operations.
   */
  function RenewWait(lease: int64): (wait: int64)
  {
    Wrap64(Wrap64(lease as int - RenewMargin) as int * Second as int)
  }

  /** A login step `authenticateVault` reports as an error. */
  predicate LoginFails(step: LoginStep)
  {
    step.response.LoginError? || (step.response.LoginAuth? && step.persist != Written)
  }

  /**
   * `authenticateVault`: send `{role_id, secret_id}`; on an error or a
   * missing `Auth` return what the call returned (nil for a missing `Auth`);
   * otherwise set the client token and persist it.
   */
  function Authenticate(c: Config, s: State): (r: (State, Option<Error>))
    requires |s.logins| > 0
    ensures r.1.Some? <==> LoginFails(s.logins[0])
    ensures r.0.trace == s.trace + [LoginRequest(c.roleId, c.identity)]
    ensures r.0.logins == s.logins[1..] && r.0.renewals == s.renewals && r.0.phase == s.phase
    ensures r.0.token == (if s.logins[0].response.LoginAuth? then s.logins[0].response.clientToken else s.token)
    ensures r.0.file == s.file ||
            (s.logins[0].response.LoginAuth? && r.0.file.Present? && r.0.file.data <= s.logins[0].response.clientToken)
    ensures s.logins[0].response.LoginAuth? && s.logins[0].persist == Written ==>
              r.0.file.Present? && r.0.file.data == s.logins[0].response.clientToken
    ensures s.file.Present? ==> r.0.file.Present? && r.0.file.mode == s.file.mode
    ensures s.file.Absent? && r.0.file.Present? ==> r.0.file.mode == CreateMode(c.umask)
  {
    var step := s.logins[0];
    var sent := s.(trace := s.trace + [LoginRequest(c.roleId, c.identity)], logins := s.logins[1..]);
    match step.response
    case LoginError(msg) => (sent, Some(LoginTransport(msg)))
    case LoginNoAuth => (sent, None)
    case LoginAuth(t, _) =>
      var (f, err) := Persist(s.file, t, c.umask, step.persist);
      (sent.(token := t, file := f), if err.Some? then Some(PersistFailed(err.value)) else None)
  }

  /**
   * `keepRenewingToken`: renew for 900 seconds; on error stop with that
   * error; otherwise wait the lease minus 30 seconds and renew again.
   * Renewing never touches the token, the file or the login script; the
   * loop stops only on a renewal error or when no response is left.
   */
  function KeepRenewing(s: State): (r: (State, Option<Error>))
    ensures r.0.token == s.token && r.0.file == s.file && r.0.logins == s.logins && r.0.phase == s.phase
    ensures s.trace <= r.0.trace
    ensures IsSuffix(r.0.renewals, s.renewals)
    ensures r.1.None? ==> r.0.renewals == []
    ensures r.1.Some? ==> r.1.value.RenewTransport? && |r.0.trace| > |s.trace| &&
                          Last(r.0.trace) == RenewRequest(s.token, RenewIncrement)
    decreases |s.renewals|
  {
    if s.renewals == [] then (s, None)
    else
      var sent := s.(trace := s.trace + [RenewRequest(s.token, RenewIncrement)], renewals := s.renewals[1..]);
      match s.renewals[0]
      case RenewError(msg) => (sent, Some(RenewTransport(msg)))
      case Renewed(lease) =>
        var r := KeepRenewing(sent.(trace := sent.trace + [Wait(RenewWait(lease))]));
        SuffixTransitive(r.0.renewals, sent.renewals, s.renewals);
        r
  }

  /**
   * One pass of the loop in `main`: log in, and unless that fails (fatal
   * exit) renew until a renewal fails (back to `LoggedOut`) or the renewal
   * script runs out (still `Renewing`).
   */
  function Cycle(c: Config, s: State): (r: State)
    requires s.phase == LoggedOut && |s.logins| > 0
    ensures r.logins == s.logins[1..]
    ensures IsSuffix(r.renewals, s.renewals)
    ensures r.phase == Exited <==> LoginFails(s.logins[0])
    ensures r.phase == Renewing ==> r.renewals == []
    ensures r.token == (if s.logins[0].response.LoginAuth? then s.logins[0].response.clientToken else s.token)
    ensures r.file == s.file ||
            (s.logins[0].response.LoginAuth? && r.file.Present? && r.file.data <= s.logins[0].response.clientToken)
    ensures s.file.Present? ==> r.file.Present? && r.file.mode == s.file.mode
    ensures s.file.Absent? && r.file.Present? ==> r.file.mode == CreateMode(c.umask)
  {
    var (loggedIn, err) := Authenticate(c, s);
    if err.Some? then
      loggedIn.(phase := Exited, trace := loggedIn.trace + [FatalExit(err.value)])
    else
      var (renewed, renewErr) := KeepRenewing(loggedIn.(phase := Renewing));
      if renewErr.None? then renewed else renewed.(phase := LoggedOut)
  }

  /**
   * The loop in `main`: pass after pass of `Cycle` while renewals fail. The
   * run ends in `Exited`, or with the script the next step needs used up.
   */
  function Drive(c: Config, s: State): (r: State)
    requires s.phase == LoggedOut
    ensures IsSuffix(r.logins, s.logins) && |r.logins| <= |s.logins|
    ensures IsSuffix(r.renewals, s.renewals)
    ensures r.phase == Exited || (r.phase == LoggedOut && r.logins == []) || (r.phase == Renewing && r.renewals == [])
    decreases |s.logins|
  {
    if s.logins == [] then s
    else
      var next := Cycle(c, s);
      if next.phase != LoggedOut then next
      else
        var r := Drive(c, next);
        SuffixTransitive(r.logins, next.logins, s.logins);
        SuffixTransitive(r.renewals, next.renewals, s.renewals);
        r
  }
}
