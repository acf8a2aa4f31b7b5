# vault-user-token, modelled in Dafny

`vault-user-token` is a small agent that keeps a HashiCorp Vault token for a
machine.

- **Start-up.** It computes an identity from the hostname. With
  `--full-hostname=false`, a dotted hostname is cut to its first label.
- **Login.** It logs in through the AppRole method. The role id is the
  configured one and the hostname identity is sent as the secret id.
- **Token file.** It stores the client token returned by the login in
  `~/.vault-token`.
- **Renewal.** It renews the token for 900 seconds at a time. After each
  renewal it waits the granted lease less 30 seconds.
- **Failures.** When a renewal fails, it logs in again. When a login fails,
  the process exits fatally.

The model has these parts:

- **`Hostname`** (`hostname.dfy`) covers the identity computation.
  - It has a model of Go's `strings.Split` on one separator, with its inverse `Join`.
  - The identity function is `Identity`.
- **`GoTime`** (`go_time.dfy`) covers Go's 64-bit `time.Duration` arithmetic:
  - wrap-around, by `Wrap64`;
  - `time.After`'s treatment of non-positive durations, by `AfterDelay`.
- **`TokenStore`** (`token_store.dfy`) covers the token file.
  - `homedir.Expand` plus `ioutil.WriteFile`, with each way they can fail, is `Persist`.
  - The permission bits are a `bv9`.
  - Mode 0600 less the umask applies only when the file is created. An existing file keeps its mode.
- **`Lifecycle`** (`lifecycle.dfy`) covers the login and renew cycle, as pure functions on a `State` snapshot:
  - `Authenticate` is `authenticateVault`;
  - `KeepRenewing` is `keepRenewingToken`;
  - `Cycle` is one pass of the loop in `main`;
  - `Drive` is the whole loop.
- **`Agent`** (`agent.dfy`) is the process as a class, with the package
  globals and the token file as fields.
  - Its constructor is `init`.
  - Its methods `Authenticate`, `KeepRenewingToken` and `Run` are written step by step, as the Go code is.
  - Each method is proved to compute exactly the matching `Lifecycle` function.
- **`LifecycleProperties`** (`lifecycle_properties.dfy`) proves what a run of the driver guarantees:
  - the shape of every trace;
  - the process exits exactly at the first failing login;
  - the client token is the last one a login returned;
  - the token file holds a prefix of such a token, and its mode;
  - unless the process exited, once a login has returned a token the file holds exactly the client's token;
  - the renewal waits, with their overflow.

The Vault server and the filesystem are not called. Each run is given scripts
of answers:

- a sequence of `LoginStep`s: the login response, and what persisting its token does;
- a sequence of `RenewResponse`s.

What an observer sees is recorded as a trace of `Event`s: login requests,
renew requests, waits and the fatal exit. The Go loops never end, so a
modelled run stops when the script it needs next is used up.

Three behaviours of the code worth knowing:

- **A login with no error and no `Auth` block is not a failure.**
  `authenticateVault` returns the error it got, which is nil there (main.go:107-108).
  - No token is set and no file is written.
  - The process does not exit.
  - The driver goes straight on to renew with the token the client already held.
  - See `LifecycleProperties.NoAuthStillRenews`.
- **The token file is not always 0600.**
  - `ioutil.WriteFile` applies the mode 0600 only when it creates the file, and the process umask is taken off it.
  - An existing `~/.vault-token` keeps its permissions.
  - See `TokenStore.ExistingModeKept` and `TokenStore.WorldReadableFileStays`.
- **The identity always comes from the OS hostname.** There is no override
  file.

## Model

| member | source | states |
|---|---|---|
| Hostname.Split | main.go:59 | `strings.Split` yields at least one piece and no piece contains the separator |
| Hostname.JoinSplit | main.go:59 | joining the pieces of `strings.Split` with the separator gives back the original string |
| Hostname.SplitJoin | main.go:59 | splitting a join of separator-free pieces gives back exactly those pieces |
| Hostname.SplitMoreThanOne | main.go:59 | `len(parts) > 1` holds exactly when the hostname contains a dot |
| Hostname.SplitHead | main.go:59-60 | `parts[0]` is the hostname's first label: its dot-free prefix up to the first dot or the end |
| Hostname.FirstLabel | main.go:59-60 | the first label is a dot-free prefix that ends at the end of the string or at a dot |
| Hostname.FirstLabelUnique | main.go:59-60 | that prefix is the only one with these properties |
| Hostname.Identity | main.go:59-61 | the identity is a prefix of the hostname. What it is in each case is proved in `IdentityTruncates`, `IdentityKeeps`, `IdentityDotFree` and `IdentityIdempotent` |
| Hostname.IdentityTruncates | main.go:59-61 | with `--full-hostname=false` and a dotted hostname, the identity is the part before the first dot: a strictly shorter, dot-free prefix |
| Hostname.IdentityKeeps | main.go:59-61 | with `--full-hostname=true`, or a hostname without a dot, the identity is the hostname unchanged |
| Hostname.IdentityDotFree | main.go:59-61 | the identity is dot-free if and only if `--full-hostname=false` or the hostname has no dot |
| Hostname.IdentityIdempotent | main.go:59-61 | the identity is a prefix of the hostname, and computing it again changes nothing |
| Hostname.IdentityOfLabeled | main.go:59-61 | for any hostname `first.domain` with a dot-free `first`, the cut identity is `first`, and the full one is the whole name |
| GoTime.Wrap64 | main.go:96 | the result is congruent to the value modulo 2^64, and it is the value itself when that fits in an `int64` |
| TokenStore.CreateMode | main.go:118 | a newly created file gets exactly the bits of 0600 the umask leaves: no bit outside 0600, every 0600 bit not in the umask, and so no group or other bit |
| TokenStore.Persist | main.go:113-118 | the error is nil exactly when the write completes, and then the file holds the token. A home-directory or open failure leaves the file untouched. A short write leaves a prefix of at most the characters written. A changed file keeps its old mode or gets the creation mode |
| TokenStore.CreatedFileIsPrivate | main.go:118 | a token file the agent creates is never readable by group or others |
| TokenStore.ExistingModeKept | main.go:118 | persisting over an existing token file keeps the file and its mode, whatever the outcome and the umask |
| TokenStore.WorldReadableFileStays | main.go:118 | an existing 0644 token file receives the token and stays 0644, so it stays group and world readable |
| Lifecycle.LoginFails | main.go:107-118 | the logins `authenticateVault` reports as an error: a transport error, or an `Auth` block whose token could not be persisted. `Authenticate`'s first ensures proves the error is returned exactly for these |
| Lifecycle.RenewWait | main.go:96 | the wait `(time.Duration(lease) - 30) * time.Second` with Go's wrap-around. `RenewWaitCongruent`, `RenewWaitExact` and `HugeLeaseWraps` state its value |
| Lifecycle.Authenticate | main.go:100-119 | one login request with role id and identity. It fails exactly on a transport error or a failed persist; a missing `Auth` is not a failure. The token becomes the returned client token only when an `Auth` block came back. The file changes only then, to a prefix of that token, and holds the whole token after a complete write. The file mode is kept or set to the creation mode |
| Lifecycle.KeepRenewing | main.go:83-98 | renewing never changes the token, the file or the login script, and only appends to the trace. An error is a renewal error and comes right after a 900-second renewal request with the current token. Without an error the whole renewal script is used up. `KeepRenewingEvents` and `KeepRenewingFirstError` give the exact events and the stop at the first error |
| Lifecycle.Cycle | main.go:74-80 | one pass of `main`'s loop uses up exactly one login. It exits exactly when that login fails. It is still renewing only when the renewals are used up. Its token, file and mode are as after the login |
| Lifecycle.Drive | main.go:74-80 | the loop only consumes the scripts. It ends in a fatal exit, or having used up the logins, or renewing with the renewals used up |
| Agent.Agent.constructor | main.go:54-68 | start-up fixes the role id, the identity computed from the OS hostname and the umask. The client holds the environment's token, no events have happened and the driver is before its first login |
| Agent.Agent.WriteTokenFile | main.go:113-118 | the imperative write changes only the file, to what `TokenStore.Persist` states, and returns the same error |
| Agent.Agent.Authenticate | main.go:100-119 | the imperative login leaves the process in exactly the state `Lifecycle.Authenticate` gives, with the same error |
| Agent.Agent.KeepRenewingToken | main.go:83-98 | the renew loop leaves exactly the state and error of `Lifecycle.KeepRenewing` |
| Agent.Agent.Run | main.go:74-80 | the driver loop leaves exactly the state `Lifecycle.Drive` gives |
| LifecycleProperties.TraceShapeMeans | main.go:74-119 | in a well-shaped trace, every login carries role id and identity and every renewal asks for 900 seconds. A fatal exit is the last event, follows a login and never carries a renewal error. A renewal is followed by a wait or a new login, and every login after the first comes right after a renewal request |
| LifecycleProperties.KeepRenewingShape | main.go:83-98 | the renew loop, entered after a login or a wait, keeps the trace well-shaped |
| LifecycleProperties.CycleShape | main.go:74-80 | one driver pass keeps the trace well-shaped. A pass that goes back to login ends on a renewal request, and the last renewal answer it used was an error |
| LifecycleProperties.UntilError | main.go:84-92 | the renewal answers the loop can use: a front part of the answers, every one but the last a success, cut short only at the first error |
| LifecycleProperties.KeepRenewingEvents | main.go:84-96 | the renew loop uses exactly the answers up to the first error. For each it emits a 900-second renewal request with the current token, and a wait of the lease less 30 seconds after each success |
| LifecycleProperties.KeepRenewingFirstError | main.go:89-92 | the renew loop returns an error if and only if the last answer it used was an error, and then it returns that answer's message |
| LifecycleProperties.CycleBackToLogin | main.go:74-92 | a pass goes back to login if and only if its login succeeded and the renew loop then met an error. After a successful login, the pass emitted the login request and then exactly the events of the answers up to the first error |
| LifecycleProperties.DriveShape | main.go:74-80 | the whole driver keeps the trace well-shaped |
| LifecycleProperties.FreshRunTrace | main.go:74-119 | from process start, every trace has the shape above. Each login carries the fixed body and each renewal asks for 900 seconds. A login after the first comes right after a renewal request, and a fatal exit comes only right after a login. With `CycleBackToLogin`, that renewal request was answered by an error |
| LifecycleProperties.DriveEarlierLoginsSucceed | main.go:75-77 | every login the run used before its last one succeeded |
| LifecycleProperties.DriveExitsAtFirstFailure | main.go:75-77 | the process exits if and only if the last login used failed, so with the previous lemma it exits exactly at the first failing login |
| LifecycleProperties.NeverExitsWithoutLoginFailure | main.go:75-79 | a script in which no login fails never makes the process exit, however renewals fail |
| LifecycleProperties.DriveToken | main.go:111 | at the end of a run the client's token is the one from the last login that returned an `Auth` block, or the starting token if none did |
| LifecycleProperties.DriveFileMode | main.go:118 | over a whole run an existing file's mode never changes, and a created file gets 0600 less the umask |
| LifecycleProperties.DriveFileFromLogin | main.go:111-118 | over a whole run the file changes only through a login with an `Auth` block, and then holds a prefix of that login's token |
| LifecycleProperties.CycleMirror | main.go:74-118 | a pass that does not exit leaves the file holding the client's token when its login returned an `Auth` block, and keeps that agreement otherwise |
| LifecycleProperties.DriveMirror | main.go:74-118 | over a whole run that does not exit, once any login returned an `Auth` block (or if the file already held the client's token), the token file holds exactly the token the client holds at the end |
| LifecycleProperties.DriveExitRecorded | main.go:75-77 | a run that exits has the fatal exit, caused by a login or persist error, as its last event |
| LifecycleProperties.DriveExtendsTrace | main.go:74-80 | the driver only appends to the trace |
| LifecycleProperties.NoAuthStillRenews | main.go:107-108 | a login with no error and no `Auth` is not an error. No token is set and no file written, and the next request is a renewal with the previously held token |
| LifecycleProperties.RenewThenWait | main.go:89-96 | a successful renewal is followed by a wait of the renewed lease less 30 seconds |
| LifecycleProperties.RenewWaitCongruent | main.go:96 | for every lease, the wait is the exact `(lease - 30)` seconds in nanoseconds, modulo 2^64 |
| LifecycleProperties.RenewWaitExact | main.go:96 | for every lease that does not overflow, the wait is exactly `(lease - 30)` seconds, and a lease of 30 seconds or less is renewed at once |
| LifecycleProperties.RenewWaitExamples | main.go:96 | a one-hour lease waits 3570 seconds, and a 20-second lease gives -10 seconds, so renewal is immediate |
| LifecycleProperties.HugeLeaseWraps | main.go:96 | a lease just past the exact range wraps to a negative duration, and the next renewal is immediate |

## Left out

- **Command-line and environment parsing is not modelled.** This covers
  `rconfig.Parse`, `--version`, the log level and the Vault address. They
  touch no token logic.
- **The empty role id check is a precondition.** The fatal exit on an empty
  role id (main.go:44-46) becomes the constructor's `requires roleId != ""`.
- **The hostname comes from a parameter.** `os.Hostname()` and its fatal
  error (main.go:55-57) are replaced by the constructor's `osHostname`
  parameter.
- **Client creation can fail in Go, but not in the model.** `api.NewClient`
  and its fatal error (main.go:66-72) are not modelled. The client starts
  with the token from its environment, given as a parameter.
- **Vault's HTTP traffic is not modelled.** Scripted responses replace it,
  and the login's own lease duration is carried but unused, as in the code.
- **Nil-pointer panics are assumed away.** The code dereferences a nil
  `loginSecret` returned together with a nil error (main.go:107), and a nil
  `lease.Auth` after a successful renewal (main.go:94-96). Both panic in Go.
  The model assumes the Vault client never returns these, so it has no panic
  path.
- **Time is not real.** `time.After` is recorded as a `Wait` event of the
  requested duration, and no clock is modelled. `AfterDelay` encodes
  `time.After`'s rule by definition: a non-positive duration fires at once,
  any other fires after at least that duration. The model records only the
  requested duration, not when the timer actually fires.
- **Strings are sequences of characters, not bytes.** Go's strings and the
  token file's contents are bytes. `Take` keeps a number of characters, so a
  short write is counted in characters. The two agree for the ASCII tokens
  Vault issues, and splitting a hostname on `.` is the same in both forms.
- **Logging is not modelled.** `log.Errorf` and `log.Debugf` have no effect on
  the state.
- **Lifecycle.Drive: the endless loops stop with the script.** The loops in
  `main` and `keepRenewingToken` never end in Go. The model runs them until a
  fatal exit or until the finite script runs out. Runs longer than the script
  are therefore only covered up to its length.
- **Write failures are abstracted.** The OS error values are collapsed into
  `HomeDirError`, `OpenError` and `WriteError`. A write that fails part-way
  is modelled as leaving a prefix of the characters.
- **The umask is a parameter.** It is fixed for the process and not read from
  the OS.
- **The renewal lease is a 64-bit integer.** The model takes Go's `int`, the
  type of `LeaseDuration`, to be 64 bits wide. On a 32-bit platform a lease
  over 2^31-1 would not decode the same way.
- **There is no concurrency and no shutdown.** The program has no goroutines.
  The model has no signals and no graceful shutdown, and neither does the
  program.
