/**
 * Properties of the login / renew lifecycle: the shape of every trace the
 * driver produces, when the process exits, which token the client holds and
 * what is in the token file, and the renewal waits.
 */
module LifecycleProperties {
  import opened Wrappers
  import opened GoTime
  import opened TokenStore
  import opened Lifecycle

  /**
   * Event `i` of trace `t` is one the driver can produce there: every login
   * carries the role id and the identity and comes first or after a failed
   * renewal; every renewal asks for 900 seconds and follows a login or a
   * wait; every wait follows a renewal; a fatal exit follows a login and
   * never carries a renewal error. Nothing can follow a fatal exit.
   */
  predicate EventFits(c: Config, t: seq<Event>, i: int)
    requires 0 <= i < |t|
  {
    match t[i]
    case LoginRequest(roleId, secretId) =>
      roleId == c.roleId && secretId == c.identity && (i == 0 || t[i - 1].RenewRequest?)
    case RenewRequest(_, increment) =>
      increment == RenewIncrement && i > 0 && (t[i - 1].LoginRequest? || t[i - 1].Wait?)
    case Wait(_) =>
      i > 0 && t[i - 1].RenewRequest?
    case FatalExit(err) =>
      i > 0 && t[i - 1].LoginRequest? && !err.RenewTransport?
  }

  predicate TraceShape(c: Config, t: seq<Event>)
  {
    forall i :: 0 <= i < |t| ==> EventFits(c, t, i)
  }

  /** What a well-shaped trace says, spelled out event by event. */
  lemma TraceShapeMeans(c: Config, t: seq<Event>)
    requires TraceShape(c, t)
    ensures forall i :: 0 <= i < |t| && t[i].LoginRequest? ==> t[i] == LoginRequest(c.roleId, c.identity)
    ensures forall i :: 0 <= i < |t| && t[i].RenewRequest? ==> t[i].increment == RenewIncrement
    ensures forall i :: 0 <= i < |t| && t[i].FatalExit? ==> i == |t| - 1 && i > 0 && !t[i].err.RenewTransport?
    ensures forall i :: 0 < i < |t| && t[i].FatalExit? ==> t[i - 1].LoginRequest?
    ensures forall i :: 0 < i < |t| && t[i - 1].RenewRequest? ==>
              t[i].Wait? || t[i] == LoginRequest(c.roleId, c.identity)
    ensures forall i :: 0 < i < |t| && t[i].LoginRequest? ==> t[i - 1].RenewRequest?
  {
    forall i | 0 <= i < |t|
      ensures t[i].LoginRequest? ==> t[i] == LoginRequest(c.roleId, c.identity)
      ensures t[i].RenewRequest? ==> t[i].increment == RenewIncrement
      ensures t[i].FatalExit? ==> i == |t| - 1 && i > 0 && !t[i].err.RenewTransport?
    {
      assert EventFits(c, t, i);
      if i < |t| - 1 {
        var j := i + 1;
        assert EventFits(c, t, j) && t[j - 1] == t[i];
      }
    }
    forall i | 0 < i < |t|
      ensures t[i].FatalExit? ==> t[i - 1].LoginRequest?
      ensures t[i - 1].RenewRequest? ==> t[i].Wait? || t[i] == LoginRequest(c.roleId, c.identity)
      ensures t[i].LoginRequest? ==> t[i - 1].RenewRequest?
    {
      assert EventFits(c, t, i);
    }
  }

  /** Appending an event that fits after a well-shaped trace keeps it well-shaped. */
  lemma ExtendShape(c: Config, t: seq<Event>, e: Event)
    requires TraceShape(c, t)
    requires EventFits(c, t + [e], |t|)
    ensures TraceShape(c, t + [e])
  {
    var u := t + [e];
    forall i | 0 <= i < |u|
      ensures EventFits(c, u, i)
    {
      if i < |t| {
        assert EventFits(c, t, i);
        assert u[i] == t[i];
        if i > 0 { assert u[i - 1] == t[i - 1]; }
      }
    }
  }

  /** The renew loop, started after a login or a wait, keeps the trace well-shaped. */
  lemma {:induction false} KeepRenewingShape(c: Config, s: State)
    requires TraceShape(c, s.trace)
    requires |s.trace| > 0 && (Last(s.trace).LoginRequest? || Last(s.trace).Wait?)
    ensures var r := KeepRenewing(s);
      TraceShape(c, r.0.trace) &&
      (r.1.None? ==> |r.0.trace| > 0 && (Last(r.0.trace).LoginRequest? || Last(r.0.trace).Wait?))
    decreases |s.renewals|
  {
    if s.renewals != [] {
      var sent := s.(trace := s.trace + [RenewRequest(s.token, RenewIncrement)], renewals := s.renewals[1..]);
      ExtendShape(c, s.trace, RenewRequest(s.token, RenewIncrement));
      if s.renewals[0].Renewed? {
        var wait := Wait(RenewWait(s.renewals[0].leaseDuration));
        var waited := sent.(trace := sent.trace + [wait]);
        ExtendShape(c, sent.trace, wait);
        KeepRenewingShape(c, waited);
        assert KeepRenewing(s) == KeepRenewing(waited);
      }
    }
  }

  /** The events the renew loop emits for one renewal answer. */
  function AnswerEvents(token: string, answer: RenewResponse): (events: seq<Event>)
  {
    match answer
    case RenewError(_) => [RenewRequest(token, RenewIncrement)]
    case Renewed(lease) => [RenewRequest(token, RenewIncrement), Wait(RenewWait(lease))]
  }

  /**
   * The events `keepRenewingToken` produces for a sequence of renewal
   * answers: each answer follows one 900-second renewal request with the
   * token, and a successful one is followed by its wait.
   */
  function RenewEvents(token: string, rs: seq<RenewResponse>): (events: seq<Event>)
  {
    if rs == [] then [] else AnswerEvents(token, rs[0]) + RenewEvents(token, rs[1..])
  }

  /** The events of answers that start with `answer`: those of `answer`, then of the rest. */
  lemma RenewEventsCons(token: string, answer: RenewResponse, rest: seq<RenewResponse>)
    ensures RenewEvents(token, [answer] + rest) == AnswerEvents(token, answer) + RenewEvents(token, rest)
  {
    assert ([answer] + rest)[1..] == rest;
  }

  /**
   * The renewal answers up to and including the first error, or all of
   * them when there is none: a front part of the answers in which every
   * answer but the last is a success, and which stops early only at an error.
   */
  function UntilError(rs: seq<RenewResponse>): (used: seq<RenewResponse>)
    ensures used <= rs
    ensures forall j :: 0 <= j < |used| - 1 ==> used[j].Renewed?
    ensures used == rs || (used != [] && Last(used).RenewError?)
    ensures used == [] || Last(used).RenewError? || forall j :: 0 <= j < |rs| ==> rs[j].Renewed?
  {
    if rs == [] then []
    else if rs[0].RenewError? then [rs[0]]
    else [rs[0]] + UntilError(rs[1..])
  }

  /** Appending two elements one at a time appends the pair. */
  lemma AppendTwo<T>(a: seq<T>, x: T, y: T)
    ensures a + [x] + [y] == a + [x, y]
  {
  }

  lemma AppendAssoc<T>(a: seq<T>, b: seq<T>, c: seq<T>)
    ensures a + b + c == a + (b + c)
  {
  }

  /**
   * The renew loop, started from `s`, uses up exactly the answers up to the
   * first error, and emits their events in order with the token it holds.
   */
  predicate EmitsRenewEvents(s: State)
  {
    var r := KeepRenewing(s);
    var used := UntilError(s.renewals);
    |r.0.renewals| + |used| == |s.renewals| && r.0.trace == s.trace + RenewEvents(s.token, used)
  }

  /** The state the renew loop goes on from after a successful renewal. */
  function AfterRenewed(s: State): (next: State)
    requires s.renewals != [] && s.renewals[0].Renewed?
    ensures next.token == s.token && next.renewals == s.renewals[1..]
  {
    s.(trace := s.trace + [RenewRequest(s.token, RenewIncrement)] + [Wait(RenewWait(s.renewals[0].leaseDuration))],
       renewals := s.renewals[1..])
  }

  /** A first answer that is an error ends the loop with its one request. */
  lemma KeepRenewingEventsError(s: State)
    requires s.renewals != [] && s.renewals[0].RenewError?
    ensures EmitsRenewEvents(s)
  {
    var answer := s.renewals[0];
    assert KeepRenewing(s).0.trace == s.trace + [RenewRequest(s.token, RenewIncrement)];
    assert UntilError(s.renewals) == [answer];
    RenewEventsCons(s.token, answer, []);
    assert [answer] + [] == [answer];
  }

  /** After a successful first answer, the loop's events are its request and wait, then those of the rest. */
  lemma KeepRenewingEventsRenewed(s: State)
    requires s.renewals != [] && s.renewals[0].Renewed?
    requires EmitsRenewEvents(AfterRenewed(s))
    ensures EmitsRenewEvents(s)
  {
    var answer := s.renewals[0];
    var waited := AfterRenewed(s);
    var rest := UntilError(waited.renewals);
    var r := KeepRenewing(waited);
    assert KeepRenewing(s) == r;
    assert UntilError(s.renewals) == [answer] + rest;
    RenewEventsCons(s.token, answer, rest);
    AppendTwo(s.trace, RenewRequest(s.token, RenewIncrement), Wait(RenewWait(answer.leaseDuration)));
    AppendAssoc(s.trace, AnswerEvents(s.token, answer), RenewEvents(s.token, rest));
  }

  /**
   * The renew loop uses up exactly the answers up to the first error, and
   * emits their events in order with the token it holds.
   */
  lemma {:induction false} KeepRenewingEvents(s: State)
    ensures var r := KeepRenewing(s); var used := UntilError(s.renewals);
      |r.0.renewals| + |used| == |s.renewals| &&
      r.0.trace == s.trace + RenewEvents(s.token, used)
    decreases |s.renewals|
  {
    if s.renewals != [] {
      if s.renewals[0].Renewed? {
        KeepRenewingEvents(AfterRenewed(s));
        KeepRenewingEventsRenewed(s);
      } else {
        KeepRenewingEventsError(s);
      }
    }
  }

  /**
   * The renew loop stops at the first renewal error: it returns an error
   * exactly when the last answer it used was one, carrying its message.
   */
  lemma {:induction false} KeepRenewingFirstError(s: State)
    ensures var r := KeepRenewing(s); var used := UntilError(s.renewals);
      (r.1.Some? <==> used != [] && Last(used).RenewError?) &&
      (r.1.Some? ==> used != [] && r.1.value == RenewTransport(Last(used).msg))
    decreases |s.renewals|
  {
    if s.renewals != [] && s.renewals[0].Renewed? {
      var sent := s.(trace := s.trace + [RenewRequest(s.token, RenewIncrement)], renewals := s.renewals[1..]);
      var waited := sent.(trace := sent.trace + [Wait(RenewWait(s.renewals[0].leaseDuration))]);
      assert KeepRenewing(s) == KeepRenewing(waited);
      KeepRenewingFirstError(waited);
      var rest := UntilError(waited.renewals);
      assert UntilError(s.renewals) == [s.renewals[0]] + rest;
      if rest != [] {
        assert Last([s.renewals[0]] + rest) == Last(rest);
      }
    }
  }

  /**
   * A pass of the loop in `main` goes back to logging in exactly when its
   * login succeeded and the renew loop then met a renewal error. When the
   * login succeeded, the pass used exactly the renewal answers up to the
   * first error and emitted the login request and then their events.
   */
  lemma CycleBackToLogin(c: Config, s: State)
    requires s.phase == LoggedOut && |s.logins| > 0
    ensures var r := Cycle(c, s); var used := UntilError(s.renewals);
      (r.phase == LoggedOut <==> !LoginFails(s.logins[0]) && used != [] && Last(used).RenewError?) &&
      (!LoginFails(s.logins[0]) ==>
         |r.renewals| + |used| == |s.renewals| &&
         r.trace == s.trace + [LoginRequest(c.roleId, c.identity)] + RenewEvents(r.token, used))
  {
    var (loggedIn, err) := Authenticate(c, s);
    if err.None? {
      KeepRenewingEvents(loggedIn.(phase := Renewing));
      KeepRenewingFirstError(loggedIn.(phase := Renewing));
    }
  }

  /**
   * One pass of the driver, started fresh or after a failed renewal, keeps
   * the trace well-shaped; a pass that goes back to logging in ends on a
   * renewal request, and the answer to that request was an error.
   */
  lemma CycleShape(c: Config, s: State)
    requires s.phase == LoggedOut && |s.logins| > 0
    requires TraceShape(c, s.trace)
    requires s.trace == [] || Last(s.trace).RenewRequest?
    ensures var r := Cycle(c, s);
      TraceShape(c, r.trace) &&
      (r.phase == LoggedOut ==>
         |r.trace| > 0 && Last(r.trace).RenewRequest? &&
         UntilError(s.renewals) != [] && Last(UntilError(s.renewals)).RenewError?)
  {
    CycleBackToLogin(c, s);
    var (loggedIn, err) := Authenticate(c, s);
    ExtendShape(c, s.trace, LoginRequest(c.roleId, c.identity));
    if err.Some? {
      ExtendShape(c, loggedIn.trace, FatalExit(err.value));
    } else {
      KeepRenewingShape(c, loggedIn.(phase := Renewing));
    }
  }

  /** The driver, started fresh or after a failed renewal, keeps the trace well-shaped. */
  lemma {:induction false} DriveShape(c: Config, s: State)
    requires s.phase == LoggedOut
    requires TraceShape(c, s.trace)
    requires s.trace == [] || Last(s.trace).RenewRequest?
    ensures TraceShape(c, Drive(c, s).trace)
    decreases |s.logins|
  {
    if s.logins != [] {
      CycleShape(c, s);
      var next := Cycle(c, s);
      if next.phase == LoggedOut {
        DriveShape(c, next);
      }
    }
  }

  /**
   * Every run of the agent from start-up: each login sends the role id and
   * the identity computed at start-up, each renewal asks for 900 seconds, a
   * login after the first comes straight after a renewal request (whose
   * answer was an error, by `CycleBackToLogin`), and the process exits only
   * right after a login, never because of a renewal error.
   */
  lemma FreshRunTrace(c: Config, s: State)
    requires s.phase == LoggedOut && s.trace == []
    ensures var t := Drive(c, s).trace;
      (forall i :: 0 <= i < |t| && t[i].LoginRequest? ==> t[i] == LoginRequest(c.roleId, c.identity)) &&
      (forall i :: 0 <= i < |t| && t[i].RenewRequest? ==> t[i].increment == RenewIncrement) &&
      (forall i :: 0 <= i < |t| && t[i].FatalExit? ==> i == |t| - 1 && i > 0 && !t[i].err.RenewTransport?) &&
      (forall i :: 0 < i < |t| && t[i].FatalExit? ==> t[i - 1].LoginRequest?) &&
      (forall i :: 0 < i < |t| && t[i - 1].RenewRequest? ==>
         t[i].Wait? || t[i] == LoginRequest(c.roleId, c.identity)) &&
      (forall i :: 0 < i < |t| && t[i].LoginRequest? ==> t[i - 1].RenewRequest?)
  {
    DriveShape(c, s);
    TraceShapeMeans(c, Drive(c, s).trace);
  }

  /** The login steps a run used up: the start of the script that is gone at the end. */
  function Consumed(s: State, r: State): (used: seq<LoginStep>)
    requires |r.logins| <= |s.logins|
    ensures used <= s.logins
  {
    s.logins[..|s.logins| - |r.logins|]
  }

  /** Using up the first login and then `k` more uses up `k + 1`. */
  lemma ConsumedStep(s: State, next: State, r: State)
    requires |s.logins| > 0 && next.logins == s.logins[1..]
    requires |r.logins| <= |next.logins|
    ensures Consumed(s, r) == [s.logins[0]] + Consumed(next, r)
  {
  }

  /** Every login step but the last is one that succeeds. */
  predicate EarlierSucceed(used: seq<LoginStep>)
  {
    forall j :: 0 <= j < |used| - 1 ==> !LoginFails(used[j])
  }

  lemma EarlierSucceedPrepend(first: LoginStep, later: seq<LoginStep>)
    requires !LoginFails(first) && EarlierSucceed(later)
    ensures EarlierSucceed([first] + later)
  {
  }

  /** Every login the driver used before its last one succeeded: a failing login ends the run. */
  lemma {:induction false} DriveEarlierLoginsSucceed(c: Config, s: State)
    requires s.phase == LoggedOut
    ensures EarlierSucceed(Consumed(s, Drive(c, s)))
    decreases |s.logins|
  {
    if s.logins != [] {
      var next := Cycle(c, s);
      var r := Drive(c, s);
      if next.phase == LoggedOut {
        assert r == Drive(c, next);
        DriveEarlierLoginsSucceed(c, next);
        ConsumedStep(s, next, r);
        EarlierSucceedPrepend(s.logins[0], Consumed(next, r));
      } else {
        assert Consumed(s, r) == [s.logins[0]];
      }
    }
  }

  /**
   * The driver ends in `Exited` if and only if the last login it used
   * failed; with `DriveEarlierLoginsSucceed`, it exits exactly at the first
   * failing login.
   */
  lemma {:induction false} DriveExitsAtFirstFailure(c: Config, s: State)
    requires s.phase == LoggedOut
    ensures var r := Drive(c, s); var used := Consumed(s, r);
      r.phase == Exited <==> (|used| > 0 && LoginFails(Last(used)))
    decreases |s.logins|
  {
    if s.logins != [] {
      var next := Cycle(c, s);
      var r := Drive(c, s);
      if next.phase == LoggedOut {
        assert r == Drive(c, next);
        DriveExitsAtFirstFailure(c, next);
        ConsumedStep(s, next, r);
        var used := Consumed(s, r);
        var later := Consumed(next, r);
        if later == [] {
          assert r.phase != Exited;
        } else {
          assert Last(used) == Last(later);
        }
      } else {
        assert r == next;
        assert Consumed(s, r) == [s.logins[0]];
      }
    }
  }

  /** A script in which no login fails never makes the process exit. */
  lemma NeverExitsWithoutLoginFailure(c: Config, s: State)
    requires s.phase == LoggedOut
    requires forall j :: 0 <= j < |s.logins| ==> !LoginFails(s.logins[j])
    ensures Drive(c, s).phase != Exited
  {
    DriveExitsAtFirstFailure(c, s);
    DriveEarlierLoginsSucceed(c, s);
    var r := Drive(c, s);
    var used := Consumed(s, r);
    assert EarlierSucceed(used);
    if |used| > 0 {
      assert Last(used) == s.logins[|used| - 1];
    }
  }

  /** The client tokens of the steps whose login returned an `Auth` block, in order. */
  function AuthTokens(steps: seq<LoginStep>): (tokens: seq<string>)
    ensures |tokens| <= |steps|
  {
    if steps == [] then []
    else
      (if steps[0].response.LoginAuth? then [steps[0].response.clientToken] else []) + AuthTokens(steps[1..])
  }

  /** The token a login step leaves the client with, starting from `token`. */
  function TokenAfter(step: LoginStep, token: string): (after: string)
  {
    if step.response.LoginAuth? then step.response.clientToken else token
  }

  /** The token left by a run of logins: the last `Auth` token, or the starting one. */
  function LatestToken(steps: seq<LoginStep>, token: string): (latest: string)
  {
    var tokens := AuthTokens(steps);
    if tokens == [] then token else Last(tokens)
  }

  lemma LatestTokenPrepend(first: LoginStep, later: seq<LoginStep>, token: string)
    ensures LatestToken([first] + later, token) == LatestToken(later, TokenAfter(first, token))
  {
  }

  /**
   * The client token at the end of a run is the one from the last login
   * that returned an `Auth` block, or the token it started with when there
   * was none: nothing else sets it.
   */
  lemma {:induction false} DriveToken(c: Config, s: State)
    requires s.phase == LoggedOut
    ensures Drive(c, s).token == LatestToken(Consumed(s, Drive(c, s)), s.token)
    decreases |s.logins|
  {
    if s.logins != [] {
      var next := Cycle(c, s);
      var r := Drive(c, s);
      assert next.token == TokenAfter(s.logins[0], s.token);
      LatestTokenPrepend(s.logins[0], [], s.token);
      assert [s.logins[0]] + [] == [s.logins[0]];
      if next.phase == LoggedOut {
        assert r == Drive(c, next);
        DriveToken(c, next);
        ConsumedStep(s, next, r);
        LatestTokenPrepend(s.logins[0], Consumed(next, r), s.token);
      } else {
        assert r == next;
        assert Consumed(s, r) == [s.logins[0]];
      }
    }
  }

  /**
   * The token file's mode never changes once the file exists; a file the
   * agent creates gets 0600 less the umask, so no group or other bits.
   */
  lemma {:induction false} DriveFileMode(c: Config, s: State)
    requires s.phase == LoggedOut
    ensures var r := Drive(c, s);
      (s.file.Present? ==> r.file.Present? && r.file.mode == s.file.mode) &&
      (s.file.Absent? && r.file.Present? ==> r.file.mode == CreateMode(c.umask) && r.file.mode & GroupOtherBits == 0)
    decreases |s.logins|
  {
    if s.logins != [] {
      var next := Cycle(c, s);
      if next.phase == LoggedOut {
        DriveFileMode(c, next);
      }
    }
  }

  /**
   * The token file changes only through a login that returned an `Auth`
   * block: whatever it then holds is a prefix of that login's client token
   * (all of it unless the write failed part-way).
   */
  lemma {:induction false} DriveFileFromLogin(c: Config, s: State)
    requires s.phase == LoggedOut
    ensures var r := Drive(c, s); var used := Consumed(s, r);
      r.file == s.file ||
      (r.file.Present? && exists j :: 0 <= j < |used| && used[j].response.LoginAuth? && r.file.data <= used[j].response.clientToken)
    decreases |s.logins|
  {
    if s.logins != [] {
      var next := Cycle(c, s);
      var r := Drive(c, s);
      if next.phase == LoggedOut {
        DriveFileFromLogin(c, next);
        ConsumedStep(s, next, r);
        var used := Consumed(s, r);
        var later := Consumed(next, r);
        if r.file != next.file {
          var j :| 0 <= j < |later| && later[j].response.LoginAuth? && r.file.data <= later[j].response.clientToken;
          assert used[j + 1] == later[j];
        } else if r.file != s.file {
          assert used[0] == s.logins[0];
        }
      } else if r.file != s.file {
        assert Consumed(s, r)[0] == s.logins[0];
      }
    }
  }

  /** The token file holds exactly the token the client holds. */
  predicate FileMirrorsToken(s: State)
  {
    s.file.Present? && s.file.data == s.token
  }

  /** The `Auth` tokens of a run of logins are those of its first step, then of the rest. */
  lemma AuthTokensPrepend(first: LoginStep, later: seq<LoginStep>)
    ensures AuthTokens([first] + later) ==
              (if first.response.LoginAuth? then [first.response.clientToken] else []) + AuthTokens(later)
  {
    assert ([first] + later)[1..] == later;
  }

  /**
   * One pass that does not exit leaves the file holding the client's token
   * when its login returned an `Auth` block, and keeps that agreement when
   * the login returned none.
   */
  lemma CycleMirror(c: Config, s: State)
    requires s.phase == LoggedOut && |s.logins| > 0
    ensures var r := Cycle(c, s);
      r.phase != Exited && (FileMirrorsToken(s) || s.logins[0].response.LoginAuth?) ==> FileMirrorsToken(r)
  {
    var (loggedIn, err) := Authenticate(c, s);
    if err.None? {
      var start := loggedIn.(phase := Renewing);
      assert KeepRenewing(start).0.file == loggedIn.file;
      assert KeepRenewing(start).0.token == loggedIn.token;
    }
  }

  /**
   * The purpose of the agent over a whole run: unless the process exited,
   * once any login has returned an `Auth` block (or if the file already
   * held the client's token) the token file holds exactly the token the
   * client holds at the end.
   */
  lemma {:induction false} DriveMirror(c: Config, s: State)
    requires s.phase == LoggedOut
    ensures var r := Drive(c, s);
      r.phase != Exited && (FileMirrorsToken(s) || AuthTokens(Consumed(s, r)) != []) ==> FileMirrorsToken(r)
    decreases |s.logins|
  {
    if s.logins != [] {
      CycleMirror(c, s);
      var next := Cycle(c, s);
      var r := Drive(c, s);
      if next.phase == LoggedOut {
        DriveMirror(c, next);
        ConsumedStep(s, next, r);
        AuthTokensPrepend(s.logins[0], Consumed(next, r));
      } else {
        assert Consumed(s, r) == [s.logins[0]];
        AuthTokensPrepend(s.logins[0], []);
      }
    }
  }

  /** A run that ends in `Exited` has recorded the fatal exit, caused by a login, as its last event. */
  lemma {:induction false} DriveExitRecorded(c: Config, s: State)
    requires s.phase == LoggedOut
    ensures var r := Drive(c, s);
      r.phase == Exited ==> |r.trace| > 0 && Last(r.trace).FatalExit? && !Last(r.trace).err.RenewTransport?
    decreases |s.logins|
  {
    if s.logins != [] {
      var next := Cycle(c, s);
      if next.phase == LoggedOut {
        DriveExitRecorded(c, next);
      }
    }
  }

  /** The driver only appends to the trace. */
  lemma {:induction false} DriveExtendsTrace(c: Config, s: State)
    requires s.phase == LoggedOut
    ensures s.trace <= Drive(c, s).trace
    decreases |s.logins|
  {
    if s.logins != [] {
      var (loggedIn, err) := Authenticate(c, s);
      var next := Cycle(c, s);
      if err.None? {
        assert loggedIn.trace <= next.trace;
      }
      if next.phase == LoggedOut {
        DriveExtendsTrace(c, next);
      }
    }
  }

  /**
   * A login answered without error but without an `Auth` block is not an
   * error: no token is set, no file is written, the process does not exit,
   * and the next request is a renewal made with the token held before.
   */
  lemma NoAuthStillRenews(c: Config, s: State)
    requires s.phase == LoggedOut && |s.logins| > 0 && s.logins[0].response == LoginNoAuth
    requires |s.renewals| > 0
    ensures var (a, err) := Authenticate(c, s); err == None && a.token == s.token && a.file == s.file
    ensures var t := Drive(c, s).trace;
      |t| >= |s.trace| + 2 &&
      t[|s.trace|] == LoginRequest(c.roleId, c.identity) &&
      t[|s.trace| + 1] == RenewRequest(s.token, RenewIncrement)
  {
    var (a, err) := Authenticate(c, s);
    var start := a.(phase := Renewing);
    var (renewed, renewErr) := KeepRenewing(start);
    var sent := start.(trace := start.trace + [RenewRequest(s.token, RenewIncrement)], renewals := start.renewals[1..]);
    assert sent.trace <= renewed.trace by {
      if s.renewals[0].Renewed? {
        var waited := sent.(trace := sent.trace + [Wait(RenewWait(s.renewals[0].leaseDuration))]);
        assert KeepRenewing(waited) == KeepRenewing(start);
      }
    }
    var next := Cycle(c, s);
    assert next.trace == renewed.trace;
    var r := Drive(c, s);
    if next.phase == LoggedOut {
      DriveExtendsTrace(c, next);
    }
    assert sent.trace <= r.trace;
    assert r.trace[|s.trace|] == sent.trace[|s.trace|];
    assert r.trace[|s.trace| + 1] == sent.trace[|s.trace| + 1];
  }

  /**
   * After a successful renewal the next events are the renewal request and
   * a wait of the lease less 30 seconds.
   */
  lemma RenewThenWait(s: State, lease: int64)
    requires |s.renewals| > 0 && s.renewals[0] == Renewed(lease)
    ensures var t := KeepRenewing(s).0.trace;
      |t| >= |s.trace| + 2 &&
      t[|s.trace|] == RenewRequest(s.token, RenewIncrement) && t[|s.trace| + 1] == Wait(RenewWait(lease))
  {
  }

  /** For every lease, the wait is the exact `(lease - 30)` seconds modulo 2^64, as Go's arithmetic computes it. */
  lemma RenewWaitCongruent(lease: int64)
    ensures (RenewWait(lease) as int - (lease as int - RenewMargin) * Second as int) % Modulus == 0
  {
    var margin := Wrap64(lease as int - RenewMargin);
    ScaleCongruent(margin as int, lease as int - RenewMargin, Second as int);
    CongruentTrans(RenewWait(lease) as int, margin as int * Second as int, (lease as int - RenewMargin) * Second as int);
  }

  /** Smallest and largest lease, in seconds, for which the wait does not wrap around. */
  const MinExactLease: int := -9_223_372_006
  const MaxExactLease: int := 9_223_372_066

  /**
   * For every lease Go computes without overflow, the wait is the lease less
   * 30 seconds, and the next renewal comes that long after; a lease of 30
   * seconds or less is renewed at once.
   */
  lemma RenewWaitExact(lease: int64)
    requires MinExactLease <= lease as int <= MaxExactLease
    ensures RenewWait(lease) as int == (lease as int - RenewMargin) * Second as int
    ensures AfterDelay(RenewWait(lease)) ==
              if lease as int <= RenewMargin then 0 else (lease as int - RenewMargin) * Second as int
  {
  }

  /** A one-hour lease waits 3570 seconds; a 20-second lease renews at once rather than sleeping -10 seconds. */
  lemma RenewWaitExamples()
    ensures RenewWait(3600) == 3570 * Second
    ensures RenewWait(20) as int == -10 * Second as int && AfterDelay(RenewWait(20)) == 0
  {
  }

  /** A lease just past the exact range wraps to a negative duration, so the renewal comes at once. */
  lemma HugeLeaseWraps()
    ensures RenewWait((MaxExactLease + 1) as int64) < 0
    ensures AfterDelay(RenewWait((MaxExactLease + 1) as int64)) == 0
  {
  }
}
