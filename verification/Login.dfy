/**
 * Password login with throttling and lockout (server/src/auth.c), over a user table and an
 * append-only security log.
 *
 * One login is one step, during which the clock is read up to three times: for the rate limit,
 * for the account, and for the log entry. Hash verification is an argument.
 */
module Login {
  import opened Basics

  const AUTH_MAX_LOGIN_ATTEMPTS: nat := 5
  const AUTH_LOCKOUT_DURATION: nat := 300
  const RATE_WINDOW: nat := 3600
  const MAX_IP_FAILURES: nat := 20
  const MAX_USER_FAILURES: nat := 10

  datatype Code = Success | InvalidCredentials | RateLimitExceeded | AccountLocked | AccountDisabled

  datatype User = User(username: string, email: string, attempts: nat, lastAttempt: nat, lockedUntil: nat, active: bool)

  datatype EventType = LoginFailed | LoginSuccess

  /** A row of the log; an unknown user is stored as NULL. */
  datatype Entry = Entry(userId: Option<nat>, event: EventType, ip: string, at: nat)

  datatype Clock = Clock(limit: nat, account: nat, entry: nat)

  datatype Attempt = Attempt(name: string, ip: string, passwordOk: bool, clock: Clock)

  datatype State = State(users: map<nat, User>, log: seq<Entry>)

  predicate Matches(u: User, name: string) {
    u.username == name || u.email == name
  }

  // ----- The rate limit -----

  predicate IpFailedAfter(e: Entry, ip: string, after: int) {
    e.ip == ip && e.event == LoginFailed && e.at > after
  }

  function CountIp(log: seq<Entry>, ip: string, after: int): nat {
    if log == [] then 0
    else CountIp(log[..|log| - 1], ip, after) + if IpFailedAfter(log[|log| - 1], ip, after) then 1 else 0
  }

  /** The join with the users table: entries of every user whose name or e-mail matches. */
  predicate NameFailedAfter(users: map<nat, User>, e: Entry, name: string, after: int) {
    e.userId.Some? && e.userId.value in users && Matches(users[e.userId.value], name) &&
    e.event == LoginFailed && e.at > after
  }

  function CountName(users: map<nat, User>, log: seq<Entry>, name: string, after: int): nat {
    if log == [] then 0
    else
      var one := if NameFailedAfter(users, log[|log| - 1], name, after) then 1 else 0;
      CountName(users, log[..|log| - 1], name, after) + one
  }

  predicate RateLimited(s: State, a: Attempt) {
    var after := a.clock.limit - RATE_WINDOW;
    CountIp(s.log, a.ip, after) > MAX_IP_FAILURES || CountName(s.users, s.log, a.name, after) > MAX_USER_FAILURES
  }

  // ----- One login -----

  /** The row the query returns is one of those that match; which one is the database's choice. */
  ghost predicate Selected(users: map<nat, User>, name: string, row: Option<nat>) {
    match row
    case Some(id) => id in users && Matches(users[id], name)
    case None => forall id :: id in users ==> !Matches(users[id], name)
  }

  function Logged(s: State, id: Option<nat>, event: EventType, a: Attempt): State {
    s.(log := s.log + [Entry(id, event, a.ip, a.clock.entry)])
  }

  /** A wrong password: one more attempt, and the fifth in a row locks the account and starts the count again. */
  function AfterBadPassword(u: User, now: nat): User {
    if u.attempts + 1 >= AUTH_MAX_LOGIN_ATTEMPTS
    then u.(attempts := 0, lastAttempt := now, lockedUntil := now + AUTH_LOCKOUT_DURATION)
    else u.(attempts := u.attempts + 1, lastAttempt := now)
  }

  function Login(s: State, a: Attempt, row: Option<nat>): (State, Code)
    requires row.Some? ==> row.value in s.users
  {
    var now := a.clock.account;
    if RateLimited(s, a) then (s, RateLimitExceeded)
    else if row.None? then (Logged(s, None, LoginFailed, a), InvalidCredentials)
    else
      var id := row.value;
      var u := s.users[id];
      if u.lockedUntil > now then (Logged(s, row, LoginFailed, a), AccountLocked)
      else if !u.active then (Logged(s, row, LoginFailed, a), AccountDisabled)
      else if !a.passwordOk then
        var v := AfterBadPassword(u, now);
        var t := s.(users := s.users[id := v]);
        // the lockout itself is logged first, as a success
        var t' := if u.attempts + 1 >= AUTH_MAX_LOGIN_ATTEMPTS then Logged(t, row, LoginSuccess, a) else t;
        (Logged(t', row, LoginFailed, a), if v.lockedUntil > now then AccountLocked else InvalidCredentials)
      else
        var v := u.(attempts := 0, lastAttempt := now, lockedUntil := 0);
        (Logged(s.(users := s.users[id := v]), row, LoginSuccess, a), Success)
  }

  /** Whether this login gets as far as looking at the password. */
  predicate ChecksPassword(s: State, a: Attempt, row: Option<nat>)
    requires row.Some? ==> row.value in s.users
  {
    !RateLimited(s, a) && row.Some? && s.users[row.value].lockedUntil <= a.clock.account && s.users[row.value].active
  }

  // ----- What a login comes to -----

  predicate FailedSince(e: Entry, now: int) {
    e.event == LoginFailed && e.at > now - 3600
  }

  predicate HasName(users: map<nat, User>, name: string, e: Entry) {
    e.userId.Some? && e.userId.value in users &&
    (users[e.userId.value].username == name || users[e.userId.value].email == name)
  }

  /** Which entries record a failure from that address in the last hour. */
  function FromAddress(log: seq<Entry>, now: int, ip: string): set<nat> {
    set k: nat | k < |log| && FailedSince(log[k], now) && log[k].ip == ip
  }

  /** Which entries record a failure of a user who has that name or e-mail address. */
  function OfName(users: map<nat, User>, log: seq<Entry>, now: int, name: string): set<nat> {
    set k: nat | k < |log| && FailedSince(log[k], now) && HasName(users, name, log[k])
  }

  lemma {:induction false} AddressCount(log: seq<Entry>, ip: string, now: int)
    ensures CountIp(log, ip, now - 3600) == |FromAddress(log, now, ip)|
    decreases |log|
  {
    if log != [] {
      var n := |log| - 1;
      var before := FromAddress(log[..n], now, ip);
      AddressCount(log[..n], ip, now);
      assert n !in before;
      assert FromAddress(log, now, ip) ==
        if FailedSince(log[n], now) && log[n].ip == ip then before + {n} else before;
    }
  }

  lemma {:induction false} NameCount(users: map<nat, User>, log: seq<Entry>, name: string, now: int)
    ensures CountName(users, log, name, now - 3600) == |OfName(users, log, now, name)|
    decreases |log|
  {
    if log != [] {
      var n := |log| - 1;
      var before := OfName(users, log[..n], now, name);
      NameCount(users, log[..n], name, now);
      assert n !in before;
      assert OfName(users, log, now, name) ==
        if FailedSince(log[n], now) && HasName(users, name, log[n]) then before + {n} else before;
    }
  }

  /** More than 20 failures from the address in the last hour, or more than 10 of users of that name. */
  predicate TooMany(s: State, a: Attempt) {
    |FromAddress(s.log, a.clock.limit, a.ip)| > 20 || |OfName(s.users, s.log, a.clock.limit, a.name)| > 10
  }

  lemma LimitedExactly(s: State, a: Attempt)
    ensures RateLimited(s, a) <==> TooMany(s, a)
  {
    AddressCount(s.log, a.ip, a.clock.limit);
    NameCount(s.users, s.log, a.name, a.clock.limit);
  }

  /** The login reaches an account that is neither locked nor disabled. */
  predicate ReachesAccount(s: State, a: Attempt, row: Option<nat>) {
    !TooMany(s, a) && row.Some? && row.value in s.users &&
    s.users[row.value].lockedUntil <= a.clock.account && s.users[row.value].active
  }

  /** When each code is returned, on the attempt and the user's record as it was. */
  lemma CodeMeaning(s: State, a: Attempt, row: Option<nat>)
    requires row.Some? ==> row.value in s.users
    ensures var code, through := Login(s, a, row).1, !TooMany(s, a) && row.Some?;
      && (code == RateLimitExceeded <==> TooMany(s, a))
      && (code == Success <==> ReachesAccount(s, a, row) && a.passwordOk)
      && (code == AccountLocked <==> through && var u := s.users[row.value];
            u.lockedUntil > a.clock.account || (u.active && !a.passwordOk && u.attempts >= 4))
      && (code == AccountDisabled <==> through && var u := s.users[row.value];
            u.lockedUntil <= a.clock.account && !u.active)
      && (code == InvalidCredentials <==> !TooMany(s, a) && (row.None? || var u := s.users[row.value];
            u.lockedUntil <= a.clock.account && u.active && !a.passwordOk && u.attempts < 4))
  {
    hide RateLimited, TooMany;
    LimitedExactly(s, a);
  }

  /** Only this row changes, and only these entries are added. */
  predicate Leaves(s: State, t: State, row: Option<nat>, v: User, entries: seq<Entry>) {
    row.Some? && t.users == s.users[row.value := v] && t.log == s.log + entries
  }

  /**
   * What each code leaves behind: a success and every failure but a throttled one are logged under the
   * row, with the address and the time; a lockout is logged before the failure that caused it.
   */
  lemma RecordMeaning(s: State, a: Attempt, row: Option<nat>)
    requires row.Some? ==> row.value in s.users
    ensures Login(s, a, row).1 == RateLimitExceeded ==> Login(s, a, row).0 == s
    ensures Login(s, a, row).1 != RateLimitExceeded && !ReachesAccount(s, a, row) ==>
      Login(s, a, row).0 == s.(log := s.log + [Entry(row, LoginFailed, a.ip, a.clock.entry)])
    ensures ReachesAccount(s, a, row) ==>
      var (t, code) := Login(s, a, row);
      var good, bad := Entry(row, LoginSuccess, a.ip, a.clock.entry), Entry(row, LoginFailed, a.ip, a.clock.entry);
      var u := s.users[row.value].(lastAttempt := a.clock.account);
      match code
      case Success => Leaves(s, t, row, u.(attempts := 0, lockedUntil := 0), [good])
      case AccountLocked =>
        Leaves(s, t, row, u.(attempts := 0, lockedUntil := a.clock.account + 300), [good, bad])
      case InvalidCredentials => Leaves(s, t, row, u.(attempts := u.attempts + 1), [bad])
      case _ => false
  {
    hide RateLimited, TooMany;
    LimitedExactly(s, a);
    var good, bad := Entry(row, LoginSuccess, a.ip, a.clock.entry), Entry(row, LoginFailed, a.ip, a.clock.entry);
    assert s.log + [good] + [bad] == s.log + [good, bad];
  }

  class AuthContext {
    var users: map<nat, User>
    var log: seq<Entry>

    function Now(): State
      reads this
    {
      State(users, log)
    }

    constructor (users: map<nat, User>)
      ensures this.users == users && log == []
    {
      this.users, log := users, [];
    }

    method LogAttempt(id: Option<nat>, success: bool, ip: string, at: nat)
      modifies this`log
      ensures log == old(log) + [Entry(id, if success then LoginSuccess else LoginFailed, ip, at)]
    {
      log := log + [Entry(id, if success then LoginSuccess else LoginFailed, ip, at)];
    }

    method LoginUser(a: Attempt, row: Option<nat>) returns (code: Code)
      requires Selected(users, a.name, row)
      modifies this
      ensures (Now(), code) == Login(old(Now()), a, row)
      ensures code == Success <==> old(ReachesAccount(Now(), a, row)) && a.passwordOk
    {
      hide RateLimited, TooMany;
      CodeMeaning(Now(), a, row);
      if RateLimited(Now(), a) {
        return RateLimitExceeded;
      }
      if row.None? {
        LogAttempt(None, false, a.ip, a.clock.entry);
        return InvalidCredentials;
      }
      var id, now := row.value, a.clock.account;
      var user := users[id];
      if user.lockedUntil > now {
        LogAttempt(row, false, a.ip, a.clock.entry);
        return AccountLocked;
      }
      if !user.active {
        LogAttempt(row, false, a.ip, a.clock.entry);
        return AccountDisabled;
      }
      if !a.passwordOk {
        user := user.(attempts := user.attempts + 1, lastAttempt := now);
        if user.attempts >= AUTH_MAX_LOGIN_ATTEMPTS {
          user := user.(lockedUntil := now + AUTH_LOCKOUT_DURATION, attempts := 0);
          LogAttempt(row, true, a.ip, a.clock.entry);
        }
        users := users[id := user];
        LogAttempt(row, false, a.ip, a.clock.entry);
        return if user.lockedUntil > now then AccountLocked else InvalidCredentials;
      }
      users := users[id := user.(attempts := 0, lastAttempt := now, lockedUntil := 0)];
      LogAttempt(row, true, a.ip, a.clock.entry);
      return Success;
    }
  }

  // ----- Runs -----

  /** A login together with the row the database chose. */
  datatype Step = Step(attempt: Attempt, row: Option<nat>)

  function Run(s: State, steps: seq<Step>): State
    decreases |steps|
  {
    if steps == [] then s
    else
      var before := Run(s, steps[..|steps| - 1]);
      var step := steps[|steps| - 1];
      if step.row.Some? && step.row.value !in before.users then before
      else Login(before, step.attempt, step.row).0
  }

  /** Logins one after another under a clock that never goes back, each with a row that matches. */
  ghost predicate Proper(s: State, steps: seq<Step>) {
    (forall i :: 0 <= i < |steps| ==>
      var c := steps[i].attempt.clock;
      c.limit <= c.account <= c.entry && Selected(s.users, steps[i].attempt.name, steps[i].row)) &&
    (forall i, j :: 0 <= i < j < |steps| ==> steps[i].attempt.clock.entry <= steps[j].attempt.clock.limit)
  }

  /** Logins never change who a user is. */
  ghost predicate SamePeople(a: map<nat, User>, b: map<nat, User>) {
    a.Keys == b.Keys &&
    forall id :: id in a ==>
      a[id].username == b[id].username && a[id].email == b[id].email && a[id].active == b[id].active
  }

  lemma LoginKeepsPeople(s: State, a: Attempt, row: Option<nat>)
    requires row.Some? ==> row.value in s.users
    ensures SamePeople(s.users, Login(s, a, row).0.users)
  {}

  lemma {:induction false} RunKeepsPeople(s: State, steps: seq<Step>)
    ensures SamePeople(s.users, Run(s, steps).users)
    decreases |steps|
  {
    if steps != [] {
      var before := Run(s, steps[..|steps| - 1]);
      var step := steps[|steps| - 1];
      RunKeepsPeople(s, steps[..|steps| - 1]);
      if !(step.row.Some? && step.row.value !in before.users) {
        LoginKeepsPeople(before, step.attempt, step.row);
      }
    }
  }

  lemma SelectedStays(a: map<nat, User>, b: map<nat, User>, name: string, row: Option<nat>)
    requires SamePeople(a, b) && Selected(a, name, row)
    ensures Selected(b, name, row)
  {}

  // ----- How many failures a window can hold -----

  predicate FailedWithin(e: Entry, x: int) {
    e.event == LoginFailed && x <= e.at < x + RATE_WINDOW
  }

  /** Failed logins of one user in the log with a time in x .. x + 3599. */
  function UserFailures(log: seq<Entry>, id: nat, x: int): nat {
    if log == [] then 0
    else
      var one := if log[|log| - 1].userId == Some(id) && FailedWithin(log[|log| - 1], x) then 1 else 0;
      UserFailures(log[..|log| - 1], id, x) + one
  }

  function IpFailures(log: seq<Entry>, ip: string, x: int): nat {
    if log == [] then 0
    else
      var one := if log[|log| - 1].ip == ip && FailedWithin(log[|log| - 1], x) then 1 else 0;
      IpFailures(log[..|log| - 1], ip, x) + one
  }

  lemma {:induction false} WindowSeenByName(users: map<nat, User>, log: seq<Entry>, id: nat, name: string, x: int,
    after: int)
    requires id in users && Matches(users[id], name) && after < x
    ensures UserFailures(log, id, x) <= CountName(users, log, name, after)
    decreases |log|
  {
    if log != [] { WindowSeenByName(users, log[..|log| - 1], id, name, x, after); }
  }

  lemma {:induction false} WindowSeenByIp(log: seq<Entry>, ip: string, x: int, after: int)
    requires after < x
    ensures IpFailures(log, ip, x) <= CountIp(log, ip, after)
    decreases |log|
  {
    if log != [] { WindowSeenByIp(log[..|log| - 1], ip, x, after); }
  }

  lemma AppendedEntry(log: seq<Entry>, e: Entry, id: nat, ip: string, x: int)
    ensures UserFailures(log + [e], id, x) ==
      UserFailures(log, id, x) + (if e.userId == Some(id) && FailedWithin(e, x) then 1 else 0)
    ensures IpFailures(log + [e], ip, x) == IpFailures(log, ip, x) + (if e.ip == ip && FailedWithin(e, x) then 1 else 0)
  {}

  function Failure(a: Attempt, row: Option<nat>): Entry {
    Entry(row, LoginFailed, a.ip, a.clock.entry)
  }

  function Good(a: Attempt, row: Option<nat>): Entry {
    Entry(row, LoginSuccess, a.ip, a.clock.entry)
  }

  /**
   * What one login writes: nothing when throttled, otherwise one failure or one success, or a
   * lockout and a failure.
   */
  lemma LoginWrites(s: State, a: Attempt, row: Option<nat>)
    requires row.Some? ==> row.value in s.users
    ensures RateLimited(s, a) ==> Login(s, a, row).0.log == s.log
    ensures !RateLimited(s, a) ==>
      var bad, good := Failure(a, row), Good(a, row);
      Login(s, a, row).0.log in {s.log + [bad], s.log + [good], s.log + [good] + [bad]}
  {}

  lemma LoginAddsAtMostOne(s: State, a: Attempt, row: Option<nat>, id: nat, ip: string, x: int)
    requires row.Some? ==> row.value in s.users
    ensures UserFailures(Login(s, a, row).0.log, id, x) <= UserFailures(s.log, id, x) + 1
    ensures IpFailures(Login(s, a, row).0.log, ip, x) <= IpFailures(s.log, ip, x) + 1
    ensures UserFailures(Login(s, a, row).0.log, id, x) > UserFailures(s.log, id, x) ==>
      !RateLimited(s, a) && row == Some(id) && x <= a.clock.entry < x + RATE_WINDOW
    ensures IpFailures(Login(s, a, row).0.log, ip, x) > IpFailures(s.log, ip, x) ==>
      !RateLimited(s, a) && ip == a.ip && x <= a.clock.entry < x + RATE_WINDOW
  {
    hide Login, RateLimited, UserFailures, IpFailures;
    var ok, bad := Good(a, row), Failure(a, row);
    LoginWrites(s, a, row);
    AppendedEntry(s.log, ok, id, ip, x);
    AppendedEntry(s.log, bad, id, ip, x);
    AppendedEntry(s.log + [ok], bad, id, ip, x);
  }

  /** A login that was let through found room in every window its own entry falls into. */
  lemma RoomWhenLetThrough(s: State, a: Attempt, id: nat, x: int)
    requires id in s.users && Matches(s.users[id], a.name)
    requires a.clock.limit <= a.clock.entry < x + RATE_WINDOW && !RateLimited(s, a)
    ensures UserFailures(s.log, id, x) <= MAX_USER_FAILURES
  {
    WindowSeenByName(s.users, s.log, id, a.name, x, a.clock.limit - RATE_WINDOW);
  }

  lemma RoomForAddress(s: State, a: Attempt, x: int)
    requires a.clock.limit <= a.clock.entry < x + RATE_WINDOW && !RateLimited(s, a)
    ensures IpFailures(s.log, a.ip, x) <= MAX_IP_FAILURES
  {
    WindowSeenByIp(s.log, a.ip, x, a.clock.limit - RATE_WINDOW);
  }

  /** Over any run, any hour holds at most 11 failures of one user and 21 from one address. */
  lemma {:induction false} FailuresPerHour(s: State, steps: seq<Step>, id: nat, ip: string, x: int)
    requires s.log == [] && Proper(s, steps)
    ensures UserFailures(Run(s, steps).log, id, x) <= MAX_USER_FAILURES + 1
    ensures IpFailures(Run(s, steps).log, ip, x) <= MAX_IP_FAILURES + 1
    decreases |steps|
  {
    if steps != [] {
      var front, step := steps[..|steps| - 1], steps[|steps| - 1];
      var before := Run(s, front);
      FailuresPerHour(s, front, id, ip, x);
      RunKeepsPeople(s, front);
      SelectedStays(s.users, before.users, step.attempt.name, step.row);
      LoginAddsAtMostOne(before, step.attempt, step.row, id, ip, x);
      if !RateLimited(before, step.attempt) && step.attempt.clock.entry < x + RATE_WINDOW {
        if step.row == Some(id) { RoomWhenLetThrough(before, step.attempt, id, x); }
        RoomForAddress(before, step.attempt, x);
      }
    }
  }

  // ----- Counting bad passwords -----

  /** Step k of the run got as far as comparing the password of this user. */
  predicate Compared(s: State, steps: seq<Step>, k: nat, id: nat)
    requires k < |steps|
  {
    var before := Run(s, steps[..k]);
    steps[k].row == Some(id) && id in before.users && ChecksPassword(before, steps[k].attempt, steps[k].row)
  }

  /** Wrong passwords of this user since the last right one, over the whole run. */
  function Streak(s: State, steps: seq<Step>, id: nat): nat
    decreases |steps|
  {
    if steps == [] then 0
    else
      var k := |steps| - 1;
      if !Compared(s, steps, k, id) then Streak(s, steps[..k], id)
      else if steps[k].attempt.passwordOk then 0
      else Streak(s, steps[..k], id) + 1
  }

  /** Step k is a fifth wrong password in a row. */
  predicate Fifth(s: State, steps: seq<Step>, k: nat, id: nat)
    requires k < |steps|
  {
    Compared(s, steps, k, id) && !steps[k].attempt.passwordOk &&
      Streak(s, steps[..k + 1], id) % AUTH_MAX_LOGIN_ATTEMPTS == 0
  }

  /** A user's record before and after a login, given whether the password was compared. */
  predicate Moved(u: User, v: User, compared: bool, a: Attempt) {
    if !compared then v == u
    else if a.passwordOk then v.attempts == 0 && v.lockedUntil == 0
    else v == AfterBadPassword(u, a.clock.account)
  }

  lemma LoginTouches(s: State, a: Attempt, row: Option<nat>, id: nat)
    requires (row.Some? ==> row.value in s.users) && id in s.users
    ensures id in Login(s, a, row).0.users
    ensures Moved(s.users[id], Login(s, a, row).0.users[id], row == Some(id) && ChecksPassword(s, a, row), a)
  {}

  /** The same, for the last step of a run. */
  lemma StepTouches(s: State, steps: seq<Step>, k: nat, id: nat)
    requires Proper(s, steps) && k < |steps| && id in s.users
    ensures id in Run(s, steps[..k]).users && id in Run(s, steps[..k + 1]).users
    ensures Moved(Run(s, steps[..k]).users[id], Run(s, steps[..k + 1]).users[id], Compared(s, steps, k, id),
      steps[k].attempt)
    ensures Compared(s, steps, k, id) ==> Run(s, steps[..k]).users[id].lockedUntil <= steps[k].attempt.clock.account
  {
    hide Login, RateLimited;
    var before := Run(s, steps[..k]);
    assert steps[..k + 1][..k] == steps[..k];
    RunKeepsPeople(s, steps[..k]);
    SelectedStays(s.users, before.users, steps[k].attempt.name, steps[k].row);
    LoginTouches(before, steps[k].attempt, steps[k].row, id);
  }

  lemma StreakStep(s: State, steps: seq<Step>, k: nat, id: nat)
    requires k < |steps|
    ensures Streak(s, steps[..k + 1], id) == if !Compared(s, steps, k, id) then Streak(s, steps[..k], id)
      else if steps[k].attempt.passwordOk then 0 else Streak(s, steps[..k], id) + 1
  {
    hide Run, ChecksPassword;
    assert steps[..k + 1][..k] == steps[..k];
  }

  ghost predicate FreshUser(s: State, id: nat) {
    id in s.users && s.users[id].attempts == 0 && s.users[id].lockedUntil == 0
  }

  /**
   * Between logins the stored counter is the number of wrong passwords in a row, modulo five; so it
   * stays in 0 .. 4.
   */
  lemma {:induction false} CounterIsStreak(s: State, steps: seq<Step>, k: nat, id: nat)
    requires Proper(s, steps) && FreshUser(s, id) && k <= |steps|
    ensures id in Run(s, steps[..k]).users
    ensures Run(s, steps[..k]).users[id].attempts == Streak(s, steps[..k], id) % AUTH_MAX_LOGIN_ATTEMPTS
    decreases k
  {
    hide Run, Streak, Compared, Proper;
    if k == 0 {
      EmptyRun(s, steps, id);
    } else {
      CounterIsStreak(s, steps, k - 1, id);
      StepTouches(s, steps, k - 1, id);
      StreakStep(s, steps, k - 1, id);
    }
  }

  lemma EmptyRun(s: State, steps: seq<Step>, id: nat)
    ensures Run(s, steps[..0]) == s && Streak(s, steps[..0], id) == 0
  {}

  /** A lock stands exactly as the most recent fifth failure set it, until a right password clears it. */
  lemma {:induction false} LockComesFromFifth(s: State, steps: seq<Step>, k: nat, id: nat)
    requires Proper(s, steps) && FreshUser(s, id) && k <= |steps|
    ensures id in Run(s, steps[..k]).users
    ensures Run(s, steps[..k]).users[id].lockedUntil == 0 ||
      exists i :: 0 <= i < k && Fifth(s, steps, i, id) &&
        Run(s, steps[..k]).users[id].lockedUntil == steps[i].attempt.clock.account + AUTH_LOCKOUT_DURATION
    decreases k
  {
    hide Run, Streak, Compared, Proper;
    if k == 0 {
      EmptyRun(s, steps, id);
    } else {
      LockComesFromFifth(s, steps, k - 1, id);
      CounterIsStreak(s, steps, k - 1, id);
      StepTouches(s, steps, k - 1, id);
      StreakStep(s, steps, k - 1, id);
      if Compared(s, steps, k - 1, id) && !steps[k - 1].attempt.passwordOk &&
         Run(s, steps[..k - 1]).users[id].attempts + 1 >= AUTH_MAX_LOGIN_ATTEMPTS {
        assert Fifth(s, steps, k - 1, id);
      }
    }
  }

  lemma ClockOrder(s: State, steps: seq<Step>, i: nat, j: nat)
    requires Proper(s, steps) && i < j < |steps|
    ensures steps[i].attempt.clock.account <= steps[j].attempt.clock.account
  {}

  /** After a fifth failure the lock is still in place at every login of the next 300 seconds. */
  lemma {:induction false} LockHolds(s: State, steps: seq<Step>, i: nat, j: nat, id: nat)
    requires Proper(s, steps) && FreshUser(s, id) && i < j < |steps| && Fifth(s, steps, i, id)
    requires steps[j].attempt.clock.account < steps[i].attempt.clock.account + AUTH_LOCKOUT_DURATION
    ensures id in Run(s, steps[..j]).users
    ensures Run(s, steps[..j]).users[id].lockedUntil == steps[i].attempt.clock.account + AUTH_LOCKOUT_DURATION
    decreases j
  {
    hide Run, Streak, Compared, Proper;
    StepTouches(s, steps, j - 1, id);
    if j == i + 1 {
      CounterIsStreak(s, steps, i, id);
      StreakStep(s, steps, i, id);
    } else {
      ClockOrder(s, steps, j - 1, j);
      LockHolds(s, steps, i, j - 1, id);
    }
  }

  /**
   * Main result: an account refuses a login as locked exactly when a fifth wrong password in a row
   * came less than 300 seconds earlier.
   */
  lemma LockedExactlyAfterFifth(s: State, steps: seq<Step>, j: nat, id: nat)
    requires Proper(s, steps) && FreshUser(s, id) && j < |steps|
    ensures id in Run(s, steps[..j]).users
    ensures Run(s, steps[..j]).users[id].lockedUntil > steps[j].attempt.clock.account <==>
      exists i :: 0 <= i < j && Fifth(s, steps, i, id) &&
        steps[j].attempt.clock.account < steps[i].attempt.clock.account + AUTH_LOCKOUT_DURATION
  {
    hide Run, Fifth, Proper;
    LockComesFromFifth(s, steps, j, id);
    forall i | 0 <= i < j && Fifth(s, steps, i, id) &&
        steps[j].attempt.clock.account < steps[i].attempt.clock.account + AUTH_LOCKOUT_DURATION
      ensures Run(s, steps[..j]).users[id].lockedUntil > steps[j].attempt.clock.account
    {
      LockHolds(s, steps, i, j, id);
    }
  }

  /** So no password of that user is looked at in those 300 seconds, right or wrong, and the record does not move. */
  lemma LockoutRefuses(s: State, steps: seq<Step>, i: nat, j: nat, id: nat)
    requires Proper(s, steps) && FreshUser(s, id) && i < j < |steps| && Fifth(s, steps, i, id)
    requires steps[j].row == Some(id)
    requires steps[j].attempt.clock.account < steps[i].attempt.clock.account + AUTH_LOCKOUT_DURATION
    ensures id in Run(s, steps[..j]).users
    ensures Login(Run(s, steps[..j]), steps[j].attempt, steps[j].row).0.users == Run(s, steps[..j]).users
    ensures Login(Run(s, steps[..j]), steps[j].attempt, steps[j].row).1 in {RateLimitExceeded, AccountLocked}
  {
    LockHolds(s, steps, i, j, id);
  }
}
