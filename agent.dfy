/**
 * The agent process of main.go as an object: the package globals `hostname`
 * and `client` (whose token `SetToken` changes), the token file, and the
 * scripted Vault server and filesystem behind them. Each method is the Go
 * function of the same role and is proved to compute what the matching
 * function of `Lifecycle` says.
 */
module Agent {
  import opened Wrappers
  import opened TokenStore
  import opened Hostname
  import opened Lifecycle

  class Agent {
    /** Role id, identity and umask, fixed once `init` has run. */
    const config: Config

    var token: string
    var file: TokenFile
    var phase: Phase
    var trace: seq<Event>
    /** Responses the scripted server and filesystem still hold. */
    var logins: seq<LoginStep>
    var renewals: seq<RenewResponse>

    /** The object's state as a `Lifecycle.State` value. */
    function Snapshot(): State
      reads this
    {
      State(token, file, phase, trace, logins, renewals)
    }

    /**
     * `init` and the client creation in `main`: the identity is computed once
     * from the hostname the OS reports; the client starts with whatever token
     * its environment gave it (`VAULT_TOKEN`), before any login.
     */
    constructor (roleId: string, osHostname: string, useFullHostname: bool, umask: Perm,
                 envToken: string, tokenFile: TokenFile,
                 loginScript: seq<LoginStep>, renewScript: seq<RenewResponse>)
      requires roleId != ""
      ensures config == Config(roleId, Identity(osHostname, useFullHostname), umask)
      ensures Snapshot() == State(envToken, tokenFile, LoggedOut, [], loginScript, renewScript)
    {
      var hostname := osHostname;
      var parts := Split(hostname, Dot);
      if !useFullHostname && |parts| > 1 {
        hostname := parts[0];
      }
      config := Config(roleId, hostname, umask);
      token, file, phase, trace := envToken, tokenFile, LoggedOut, [];
      logins, renewals := loginScript, renewScript;
    }

    /** `ioutil.WriteFile` of the token after `homedir.Expand`. */
    method WriteTokenFile(data: string, outcome: PersistOutcome) returns (err: Option<PersistError>)
      modifies this`file
      ensures (file, err) == Persist(old(file), data, config.umask, outcome)
    {
      match outcome
      case HomeUnresolved =>
        err := Some(HomeDirError);
      case OpenFails =>
        err := Some(OpenError);
      case WriteFails(n) =>
        var mode := if file.Present? then file.mode else CreateMode(config.umask);
        file := Present(Take(data, n), mode);
        err := Some(WriteError);
      case Written =>
        var mode := if file.Present? then file.mode else CreateMode(config.umask);
        file := Present(data, mode);
        err := None;
    }

    /** `authenticateVault`. */
    method Authenticate() returns (err: Option<Error>)
      requires |logins| > 0
      modifies this
      ensures (Snapshot(), err) == Lifecycle.Authenticate(config, old(Snapshot()))
    {
      var step := logins[0];
      logins := logins[1..];
      trace := trace + [LoginRequest(config.roleId, config.identity)];
      match step.response
      case LoginError(msg) =>
        err := Some(LoginTransport(msg));
      case LoginNoAuth =>
        err := None;
      case LoginAuth(clientToken, _) =>
        token := clientToken;
        var persistErr := WriteTokenFile(clientToken, step.persist);
        err := if persistErr.Some? then Some(PersistFailed(persistErr.value)) else None;
    }

    /** `keepRenewingToken`, up to the end of the renewal script. */
    method KeepRenewingToken() returns (err: Option<Error>)
      modifies this
      ensures (Snapshot(), err) == KeepRenewing(old(Snapshot()))
    {
      while renewals != []
        invariant KeepRenewing(Snapshot()) == KeepRenewing(old(Snapshot()))
        decreases |renewals|
      {
        var response := renewals[0];
        renewals := renewals[1..];
        trace := trace + [RenewRequest(token, RenewIncrement)];
        match response
        case RenewError(msg) =>
          return Some(RenewTransport(msg));
        case Renewed(lease) =>
          trace := trace + [Wait(RenewWait(lease))];
      }
      err := None;
    }

    /** The loop in `main`, up to a fatal exit or the end of the script it needs next. */
    method Run()
      requires phase == LoggedOut
      modifies this
      ensures Snapshot() == Drive(config, old(Snapshot()))
    {
      while logins != []
        invariant phase == LoggedOut
        invariant Drive(config, Snapshot()) == Drive(config, old(Snapshot()))
        decreases |logins|
      {
        var err := Authenticate();
        if err.Some? {
          trace := trace + [FatalExit(err.value)];
          phase := Exited;
          return;
        }
        phase := Renewing;
        var renewErr := KeepRenewingToken();
        if renewErr.None? {
          return;
        }
        phase := LoggedOut;
      }
    }
  }
}
