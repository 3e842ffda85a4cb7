/** The login limiter and session table over whole runs (internal/httpapi/auth.go). */
module Authenticator {
  import opened Common

  /** Times are nanoseconds of one monotone clock. */
  const MINUTE: int := 60_000_000_000
  const MAX_RECENT: nat := 5
  const MAX_ATTEMPTS: nat := 1024
  const MAX_SESSIONS: nat := 1024

  type Address = string
  type Token = string

  datatype Settings = Settings(username: string, password: string, ttl: int)

  datatype State = State(attempts: map<Address, seq<int>>, sessions: map<Token, int>)

  datatype Result =
    | Issued(token: Token, expires: int)
    | AuthenticationDisabled
    | LoginRateLimited
    | InvalidCredentials
    | SessionCapacityExhausted
    | SessionCreationFailed

  predicate Required(settings: Settings) {
    settings.username != ""
  }

  // ------------------------------------------------------------------
  // The operations on values
  // ------------------------------------------------------------------

  /** The attempts less than a minute old. */
  function Recent(log: seq<int>, now: int): seq<int> {
    if log == [] then []
    else
      var n := |log| - 1;
      Recent(log[..n], now) + (if log[n] > now - MINUTE then [log[n]] else [])
  }

  function Pruned(attempts: map<Address, seq<int>>, now: int): map<Address, seq<int>> {
    map key | key in attempts && Recent(attempts[key], now) != [] :: Recent(attempts[key], now)
  }

  function Unexpired(sessions: map<Token, int>, now: int): map<Token, int> {
    map token | token in sessions && sessions[token] > now :: sessions[token]
  }

  function LogOf(attempts: map<Address, seq<int>>, key: Address): seq<int> {
    if key in attempts then attempts[key] else []
  }

  /** `token` is None when the random source fails. */
  datatype Login = Login(now: int, address: Address, username: string, password: string, token: Option<Token>)

  /** The attempt table after making room for the login's address, if it can be made. */
  function Room(attempts: map<Address, seq<int>>, login: Login): map<Address, seq<int>> {
    if login.address !in attempts && |attempts| >= MAX_ATTEMPTS then Pruned(attempts, login.now) else attempts
  }

  predicate Crowded(attempts: map<Address, seq<int>>, login: Login) {
    login.address !in attempts && |Room(attempts, login)| >= MAX_ATTEMPTS
  }

  function LoginAttempts(attempts: map<Address, seq<int>>, login: Login): map<Address, seq<int>> {
    var room := Room(attempts, login);
    var recent := Recent(LogOf(room, login.address), login.now);
    if Crowded(attempts, login) then room
    else if |recent| >= MAX_RECENT then room[login.address := recent]
    else room[login.address := recent + [login.now]]
  }

  /** Whether the login gets as far as comparing credentials. */
  predicate Checked(attempts: map<Address, seq<int>>, login: Login) {
    && !Crowded(attempts, login)
    && |Recent(LogOf(Room(attempts, login), login.address), login.now)| < MAX_RECENT
  }

  predicate Matches(settings: Settings, login: Login) {
    login.username == settings.username && login.password == settings.password
  }

  /** The session table after a login with the right credentials has looked for room. */
  function SessionRoom(sessions: map<Token, int>, now: int): map<Token, int> {
    if |sessions| >= MAX_SESSIONS then Unexpired(sessions, now) else sessions
  }

  function SessionResult(sessions: map<Token, int>, settings: Settings, login: Login): Result {
    if !Matches(settings, login) then InvalidCredentials
    else if |SessionRoom(sessions, login.now)| >= MAX_SESSIONS then SessionCapacityExhausted
    else if login.token.None? then SessionCreationFailed
    else Issued(login.token.value, login.now + settings.ttl)
  }

  function LoginResult(s: State, settings: Settings, login: Login): Result {
    if !Required(settings) then AuthenticationDisabled
    else if !Checked(s.attempts, login) then LoginRateLimited
    else SessionResult(s.sessions, settings, login)
  }

  /** The session table after credentials were compared. */
  function Opened(sessions: map<Token, int>, settings: Settings, login: Login): map<Token, int> {
    var result := SessionResult(sessions, settings, login);
    var room := SessionRoom(sessions, login.now);
    if result.InvalidCredentials? then sessions
    else if result.Issued? then room[result.token := result.expires]
    else room
  }

  function LoginSessions(s: State, settings: Settings, login: Login): map<Token, int> {
    if Checked(s.attempts, login) then Opened(s.sessions, settings, login) else s.sessions
  }

  function LoggedIn(s: State, settings: Settings, login: Login): State {
    if !Required(settings) then s
    else State(LoginAttempts(s.attempts, login), LoginSessions(s, settings, login))
  }

  predicate Admits(s: State, settings: Settings, cookie: Option<Token>, now: int) {
    !Required(settings) || (cookie.Some? && cookie.value in s.sessions && s.sessions[cookie.value] > now)
  }

  function AfterCheck(s: State, settings: Settings, cookie: Option<Token>, now: int): State {
    if Admits(s, settings, cookie, now) || cookie.None? then s else s.(sessions := s.sessions - {cookie.value})
  }

  function LoggedOut(s: State, cookie: Option<Token>): State {
    if cookie.None? then s else s.(sessions := s.sessions - {cookie.value})
  }

  // ------------------------------------------------------------------
  // Whole runs
  // ------------------------------------------------------------------

  datatype Operation =
    | TryLogin(login: Login)
    | Check(cookie: Option<Token>, now: int)
    | Logout(cookie: Option<Token>, now: int)

  function TimeOf(op: Operation): int {
    match op
    case TryLogin(login) => login.now
    case Check(_, now) => now
    case Logout(_, now) => now
  }

  /**
    The state with its history: `checked` lists, for every address, the times of
    all logins whose credentials were compared; `active` gives the time each
    token was last issued, unless it was logged out since; `clock` is the time of
    the last operation.
   */
  datatype Run = Run(s: State, checked: map<Address, seq<int>>, active: map<Token, int>, clock: int)

  function Start(now: int): Run {
    Run(State(map[], map[]), map[], map[], now)
  }

  function CheckedAfter(attempts: map<Address, seq<int>>, checked: map<Address, seq<int>>,
                        login: Login): map<Address, seq<int>> {
    if Checked(attempts, login) then checked[login.address := LogOf(checked, login.address) + [login.now]] else checked
  }

  function ActiveAfter(active: map<Token, int>, result: Result, now: int): map<Token, int> {
    if result.Issued? then active[result.token := now] else active
  }

  function After(r: Run, settings: Settings, op: Operation): Run {
    match op
    case TryLogin(login) =>
      var result := LoginResult(r.s, settings, login);
      Run(LoggedIn(r.s, settings, login),
          if Required(settings) then CheckedAfter(r.s.attempts, r.checked, login) else r.checked,
          ActiveAfter(r.active, result, login.now),
          login.now)
    case Check(cookie, now) => r.(s := AfterCheck(r.s, settings, cookie, now), clock := now)
    case Logout(cookie, now) =>
      r.(s := LoggedOut(r.s, cookie), clock := now,
         active := if cookie.None? then r.active else r.active - {cookie.value})
  }

  function AfterAll(start: int, settings: Settings, ops: seq<Operation>): Run {
    if ops == [] then Start(start)
    else After(AfterAll(start, settings, ops[..|ops| - 1]), settings, ops[|ops| - 1])
  }

  ghost predicate Monotone(start: int, ops: seq<Operation>) {
    && (forall i :: 0 <= i < |ops| ==> start <= TimeOf(ops[i]))
    && (forall i, j :: 0 <= i < j < |ops| ==> TimeOf(ops[i]) <= TimeOf(ops[j]))
  }

  // ------------------------------------------------------------------
  // Logs
  // ------------------------------------------------------------------

  ghost predicate Sorted(log: seq<int>, clock: int) {
    && (forall i, j :: 0 <= i < j < |log| ==> log[i] <= log[j])
    && (forall i :: 0 <= i < |log| ==> log[i] <= clock)
  }

  /** Six logins in a row never fall inside one minute. */
  ghost predicate Spaced(log: seq<int>) {
    forall i, j :: 0 <= i && j == i + MAX_RECENT && j < |log| ==> log[j] - log[i] >= MINUTE
  }

  /** `tail` is `log` without entries that are at least a minute old. */
  ghost predicate Remembers(tail: seq<int>, log: seq<int>, clock: int) {
    && |tail| <= |log|
    && tail == log[|log| - |tail|..]
    && forall i :: 0 <= i < |log| - |tail| ==> log[i] <= clock - MINUTE
  }

  /** `r` is the suffix of the entries less than a minute old. */
  ghost predicate RecentPart(r: seq<int>, log: seq<int>, now: int) {
    && |r| <= |log|
    && r == log[|log| - |r|..]
    && (forall i :: 0 <= i < |log| - |r| ==> log[i] <= now - MINUTE)
    && (forall i :: |log| - |r| <= i < |log| ==> log[i] > now - MINUTE)
  }

  lemma NextRecent(r: seq<int>, front: seq<int>, x: int, now: int)
    requires RecentPart(r, front, now)
    requires front != [] ==> front[|front| - 1] <= x
    ensures x > now - MINUTE ==> RecentPart(r + [x], front + [x], now)
    ensures x <= now - MINUTE ==> r == [] && RecentPart([], front + [x], now)
  {
  }

  lemma {:induction false} RecentIsSuffix(log: seq<int>, clock: int, now: int)
    requires Sorted(log, clock)
    ensures RecentPart(Recent(log, now), log, now)
  {
    if log != [] {
      var n := |log| - 1;
      assert Sorted(log[..n], clock);
      RecentIsSuffix(log[..n], clock, now);
      NextRecent(Recent(log[..n], now), log[..n], log[n], now);
      hide Sorted, RecentPart;
      assert log == log[..n] + [log[n]];
    }
  }

  lemma SortedTail(tail: seq<int>, log: seq<int>, clock: int)
    requires Sorted(log, clock) && |tail| <= |log| && tail == log[|log| - |tail|..]
    ensures Sorted(tail, clock)
  {
  }

  /** A suffix of a suffix is a suffix. */
  lemma RecentOfTail(r: seq<int>, tail: seq<int>, log: seq<int>, clock: int, now: int)
    requires RecentPart(r, tail, now) && Remembers(tail, log, clock) && clock <= now
    ensures RecentPart(r, log, now)
  {
    var d := |log| - |tail|;
    assert forall i :: d <= i < |log| ==> log[i] == tail[i - d];
  }

  lemma RecentRemembers(tail: seq<int>, log: seq<int>, clock: int, now: int)
    requires Sorted(log, clock) && Remembers(tail, log, clock) && clock <= now
    ensures RecentPart(Recent(tail, now), log, now)
  {
    SortedTail(tail, log, clock);
    hide Sorted;
    RecentIsSuffix(tail, clock, now);
    RecentOfTail(Recent(tail, now), tail, log, clock, now);
  }

  /** What one address's remembered attempts say about its whole log. */
  ghost predicate Tracked(tail: seq<int>, log: seq<int>, clock: int) {
    Sorted(log, clock) && Spaced(log) && Remembers(tail, log, clock)
  }

  lemma CheckedKeepsTracked(tail: seq<int>, log: seq<int>, clock: int, now: int)
    requires Tracked(tail, log, clock) && clock <= now
    requires |Recent(tail, now)| < MAX_RECENT
    ensures Tracked(Recent(tail, now) + [now], log + [now], now)
  {
    RecentRemembers(tail, log, clock, now);
    var longer := log + [now];
    var r := Recent(tail, now);
    assert r + [now] == longer[|longer| - |r| - 1..];
  }

  lemma ForgettingKeepsTracked(tail: seq<int>, log: seq<int>, clock: int, now: int)
    requires Tracked(tail, log, clock) && clock <= now
    ensures Tracked(Recent(tail, now), log, now)
    ensures Tracked(tail, log, now)
  {
    RecentRemembers(tail, log, clock, now);
  }

  /** How many logged times lie in the minute that ends at `t`. */
  function InMinute(log: seq<int>, t: int): nat {
    if log == [] then 0
    else
      var n := |log| - 1;
      InMinute(log[..n], t) + (if t - MINUTE < log[n] <= t then 1 else 0)
  }

  lemma {:induction false} TooOld(log: seq<int>, t: int)
    requires forall i :: 0 <= i < |log| ==> log[i] <= t - MINUTE
    ensures InMinute(log, t) == 0
  {
    if log != [] {
      TooOld(log[..|log| - 1], t);
    }
  }

  /** Of a suffix of `k` entries, at most `k` count. */
  lemma {:induction false} SuffixCount(log: seq<int>, t: int, k: nat)
    requires k <= |log|
    ensures InMinute(log, t) <= InMinute(log[..|log| - k], t) + k
  {
    if k == 0 {
      assert log[..|log|] == log;
    } else {
      var n := |log| - 1;
      SuffixCount(log[..n], t, k - 1);
      assert log[..n][..n - (k - 1)] == log[..|log| - k];
    }
  }

  lemma {:induction false} SpacedCount(log: seq<int>, clock: int, t: int)
    requires Sorted(log, clock) && Spaced(log)
    ensures InMinute(log, t) <= MAX_RECENT
  {
    if log == [] {
    } else if log[|log| - 1] > t {
      SpacedCount(log[..|log| - 1], clock, t);
    } else if |log| < MAX_RECENT {
      SuffixCount(log, t, |log|);
    } else {
      var m := |log| - MAX_RECENT;
      forall i | 0 <= i < m ensures log[..m][i] <= t - MINUTE {
        assert log[m - 1] <= log[m - 1 + MAX_RECENT] - MINUTE;
        assert i < m - 1 ==> log[i] <= log[m - 1];
      }
      TooOld(log[..m], t);
      SuffixCount(log, t, MAX_RECENT);
    }
  }

  // ------------------------------------------------------------------
  // What every operation keeps
  // ------------------------------------------------------------------

  ghost predicate AttemptsInv(attempts: map<Address, seq<int>>, checked: map<Address, seq<int>>, clock: int) {
    && |attempts| <= MAX_ATTEMPTS
    && forall key {:trigger LogOf(checked, key)} ::
         Tracked(LogOf(attempts, key), LogOf(checked, key), clock)
  }

  /** A token is stored until it expires or is logged out, and expires one TTL after its last issue. */
  ghost predicate SessionsInv(sessions: map<Token, int>, active: map<Token, int>, clock: int, ttl: int) {
    && |sessions| <= MAX_SESSIONS
    && (forall token :: token in sessions ==> token in active && sessions[token] == active[token] + ttl)
    && (forall token :: token in active && active[token] + ttl > clock ==> token in sessions)
  }

  ghost predicate Inv(r: Run, settings: Settings) {
    && AttemptsInv(r.s.attempts, r.checked, r.clock)
    && SessionsInv(r.s.sessions, r.active, r.clock, settings.ttl)
  }

  lemma {:induction false} SubmapSize<K, V>(small: map<K, V>, big: map<K, V>)
    requires small.Keys <= big.Keys
    ensures |small| <= |big|
  {
    assert big.Keys == small.Keys + (big.Keys - small.Keys);
    assert |small| == |small.Keys| && |big| == |big.Keys|;
  }

  lemma InsertedSize<K, V>(m: map<K, V>, key: K, value: V)
    ensures |m[key := value]| == if key in m then |m| else |m| + 1
  {
    assert m[key := value].Keys == m.Keys + {key};
    assert |m[key := value]| == |m[key := value].Keys| && |m| == |m.Keys|;
  }

  lemma RoomFits(attempts: map<Address, seq<int>>, login: Login)
    requires |attempts| <= MAX_ATTEMPTS
    ensures |Room(attempts, login)| <= MAX_ATTEMPTS
    ensures !Crowded(attempts, login) && login.address !in Room(attempts, login) ==> |Room(attempts, login)| < MAX_ATTEMPTS
  {
    SubmapSize(Room(attempts, login), attempts);
  }

  lemma RoomKeepsTracked(attempts: map<Address, seq<int>>, log: seq<int>, clock: int, login: Login, key: Address)
    requires Tracked(LogOf(attempts, key), log, clock) && clock <= login.now
    ensures Tracked(LogOf(Room(attempts, login), key), log, login.now)
  {
    ForgettingKeepsTracked(LogOf(attempts, key), log, clock, login.now);
  }

  /** Replacing one address's entry keeps the others. */
  lemma StoreKeepsAttempts(room: map<Address, seq<int>>, checked: map<Address, seq<int>>,
                           checked': map<Address, seq<int>>, now: int, key: Address, tail: seq<int>)
    requires AttemptsInv(room, checked, now) && Tracked(tail, LogOf(checked', key), now)
    requires forall k :: k != key ==> LogOf(checked', k) == LogOf(checked, k)
    requires key !in room ==> |room| < MAX_ATTEMPTS
    ensures AttemptsInv(room[key := tail], checked', now)
  {
    hide Tracked;
    InsertedSize(room, key, tail);
    var stored := room[key := tail];
    forall k ensures Tracked(LogOf(stored, k), LogOf(checked', k), now) {
      if k == key {
        assert LogOf(stored, k) == tail;
      } else {
        assert LogOf(stored, k) == LogOf(room, k);
        assert Tracked(LogOf(room, k), LogOf(checked, k), now);
      }
    }
  }

  lemma LoginKeepsAttempts(attempts: map<Address, seq<int>>, checked: map<Address, seq<int>>, clock: int, login: Login)
    requires AttemptsInv(attempts, checked, clock) && clock <= login.now
    ensures AttemptsInv(LoginAttempts(attempts, login), CheckedAfter(attempts, checked, login), login.now)
  {
    var room := Room(attempts, login);
    RoomFits(attempts, login);
    forall key ensures Tracked(LogOf(room, key), LogOf(checked, key), login.now) {
      RoomKeepsTracked(attempts, LogOf(checked, key), clock, login, key);
    }
    if !Crowded(attempts, login) {
      var tail, log := LogOf(room, login.address), LogOf(checked, login.address);
      assert Tracked(tail, log, login.now);
      var recent := Recent(tail, login.now);
      if |recent| >= MAX_RECENT {
        ForgettingKeepsTracked(tail, log, login.now, login.now);
        StoreKeepsAttempts(room, checked, checked, login.now, login.address, recent);
      } else {
        CheckedKeepsTracked(tail, log, login.now, login.now);
        StoreKeepsAttempts(room, checked, CheckedAfter(attempts, checked, login), login.now, login.address,
                           recent + [login.now]);
      }
    }
  }

  lemma RoomKeepsSessions(sessions: map<Token, int>, active: map<Token, int>, clock: int, ttl: int, now: int)
    requires SessionsInv(sessions, active, clock, ttl) && clock <= now
    ensures SessionsInv(sessions, active, now, ttl)
    ensures SessionsInv(Unexpired(sessions, now), active, now, ttl)
    ensures SessionsInv(SessionRoom(sessions, now), active, now, ttl)
  {
    SubmapSize(Unexpired(sessions, now), sessions);
  }

  lemma IssueKeepsSessions(room: map<Token, int>, active: map<Token, int>, now: int, ttl: int, token: Token)
    requires SessionsInv(room, active, now, ttl) && |room| < MAX_SESSIONS
    ensures SessionsInv(room[token := now + ttl], active[token := now], now, ttl)
  {
    InsertedSize(room, token, now + ttl);
  }

  lemma OpeningKeepsSessions(sessions: map<Token, int>, active: map<Token, int>, clock: int, settings: Settings,
                             login: Login)
    requires SessionsInv(sessions, active, clock, settings.ttl) && clock <= login.now
    ensures SessionsInv(Opened(sessions, settings, login),
                        ActiveAfter(active, SessionResult(sessions, settings, login), login.now), login.now, settings.ttl)
  {
    RoomKeepsSessions(sessions, active, clock, settings.ttl, login.now);
    var result := SessionResult(sessions, settings, login);
    if result.Issued? {
      IssueKeepsSessions(SessionRoom(sessions, login.now), active, login.now, settings.ttl, result.token);
    }
  }

  lemma LoginKeepsSessions(r: Run, settings: Settings, login: Login)
    requires SessionsInv(r.s.sessions, r.active, r.clock, settings.ttl) && r.clock <= login.now
    ensures var next := After(r, settings, TryLogin(login));
            SessionsInv(next.s.sessions, next.active, login.now, settings.ttl)
  {
    RoomKeepsSessions(r.s.sessions, r.active, r.clock, settings.ttl, login.now);
    OpeningKeepsSessions(r.s.sessions, r.active, r.clock, settings, login);
  }

  lemma TimeKeepsAttempts(attempts: map<Address, seq<int>>, checked: map<Address, seq<int>>, clock: int, now: int)
    requires AttemptsInv(attempts, checked, clock) && clock <= now
    ensures AttemptsInv(attempts, checked, now)
  {
    forall key ensures Tracked(LogOf(attempts, key), LogOf(checked, key), now) {
      ForgettingKeepsTracked(LogOf(attempts, key), LogOf(checked, key), clock, now);
    }
  }

  lemma AfterKeepsInv(r: Run, settings: Settings, op: Operation)
    requires Inv(r, settings) && r.clock <= TimeOf(op)
    ensures Inv(After(r, settings, op), settings)
    ensures After(r, settings, op).clock == TimeOf(op)
  {
    match op
    case TryLogin(login) =>
      LoginKeepsSessions(r, settings, login);
      if Required(settings) {
        LoginKeepsAttempts(r.s.attempts, r.checked, r.clock, login);
      } else {
        TimeKeepsAttempts(r.s.attempts, r.checked, r.clock, login.now);
      }
    case Check(cookie, now) =>
      TimeKeepsAttempts(r.s.attempts, r.checked, r.clock, now);
      SubmapSize(AfterCheck(r.s, settings, cookie, now).sessions, r.s.sessions);
    case Logout(cookie, now) =>
      TimeKeepsAttempts(r.s.attempts, r.checked, r.clock, now);
      SubmapSize(LoggedOut(r.s, cookie).sessions, r.s.sessions);
  }

  lemma {:induction false} RunKeepsInv(start: int, settings: Settings, ops: seq<Operation>)
    requires Monotone(start, ops)
    ensures Inv(AfterAll(start, settings, ops), settings)
    ensures AfterAll(start, settings, ops).clock == if ops == [] then start else TimeOf(ops[|ops| - 1])
  {
    if ops != [] {
      var n := |ops| - 1;
      RunKeepsInv(start, settings, ops[..n]);
      assert n > 0 ==> TimeOf(ops[..n][n - 1]) <= TimeOf(ops[n]);
      AfterKeepsInv(AfterAll(start, settings, ops[..n]), settings, ops[n]);
    }
  }

  /** No minute of any run holds more than five checked logins from one address; the tables stay within their caps. */
  lemma AtMostFivePerMinute(start: int, settings: Settings, ops: seq<Operation>, address: Address, t: int)
    requires Monotone(start, ops)
    ensures var r := AfterAll(start, settings, ops);
            && InMinute(LogOf(r.checked, address), t) <= MAX_RECENT
            && |r.s.attempts| <= MAX_ATTEMPTS && |r.s.sessions| <= MAX_SESSIONS
  {
    RunKeepsInv(start, settings, ops);
    var r := AfterAll(start, settings, ops);
    SpacedCount(LogOf(r.checked, address), r.clock, t);
  }

  lemma CountOfRecent(tail: seq<int>, log: seq<int>, clock: int, now: int)
    requires Tracked(tail, log, clock) && clock <= now
    ensures InMinute(log, now) == |Recent(tail, now)|
  {
    RecentRemembers(tail, log, clock, now);
    hide Tracked, Spaced, Remembers;
    AllCount(log, now, |Recent(tail, now)|);
  }

  lemma {:induction false} AllCount(log: seq<int>, t: int, k: nat)
    requires k <= |log|
    requires forall i :: 0 <= i < |log| - k ==> log[i] <= t - MINUTE
    requires forall i :: |log| - k <= i < |log| ==> t - MINUTE < log[i] <= t
    ensures InMinute(log, t) == k
  {
    if k == 0 {
      TooOld(log, t);
    } else {
      AllCount(log[..|log| - 1], t, k - 1);
    }
  }

  /**
    The limiter forgets nothing it needs: unless the attempt table is full of
    other addresses, a login is refused for its rate exactly when the minute
    before it already holds five checked logins from its address.
   */
  lemma RateLimitedExactly(start: int, settings: Settings, ops: seq<Operation>, login: Login)
    requires Monotone(start, ops + [TryLogin(login)]) && Required(settings)
    ensures var r := AfterAll(start, settings, ops);
            LoginResult(r.s, settings, login).LoginRateLimited?
            <==> Crowded(r.s.attempts, login) || InMinute(LogOf(r.checked, login.address), login.now) == MAX_RECENT
  {
    var r := AfterAll(start, settings, ops);
    PrefixMonotone(start, ops, TryLogin(login));
    RunKeepsInv(start, settings, ops);
    CountOfRemembered(r.s.attempts, r.checked, r.clock, login);
  }

  /** What the table remembers of the minute before a login is all there was. */
  lemma CountOfRemembered(attempts: map<Address, seq<int>>, checked: map<Address, seq<int>>, clock: int, login: Login)
    requires AttemptsInv(attempts, checked, clock) && clock <= login.now
    ensures InMinute(LogOf(checked, login.address), login.now)
         == |Recent(LogOf(Room(attempts, login), login.address), login.now)| <= MAX_RECENT
  {
    var tail, log := LogOf(Room(attempts, login), login.address), LogOf(checked, login.address);
    RoomKeepsTracked(attempts, log, clock, login, login.address);
    hide AttemptsInv, Room;
    CountOfRecent(tail, log, login.now, login.now);
    SpacedCount(log, login.now, login.now);
  }

  lemma PrefixMonotone(start: int, ops: seq<Operation>, op: Operation)
    requires Monotone(start, ops + [op])
    ensures Monotone(start, ops) && start <= TimeOf(op)
    ensures ops != [] ==> TimeOf(ops[|ops| - 1]) <= TimeOf(op)
  {
    var all := ops + [op];
    assert all[|ops|] == op;
    assert forall i :: 0 <= i < |ops| ==> all[i] == ops[i];
  }

  /** A cookie is admitted exactly when it was issued less than one TTL ago and not logged out since. */
  lemma AdmittedExactly(start: int, settings: Settings, ops: seq<Operation>, token: Token, now: int)
    requires Monotone(start, ops + [Check(Some(token), now)]) && Required(settings)
    ensures var r := AfterAll(start, settings, ops);
            Admits(r.s, settings, Some(token), now) <==> token in r.active && now - r.active[token] < settings.ttl
  {
    PrefixMonotone(start, ops, Check(Some(token), now));
    RunKeepsInv(start, settings, ops);
  }

  /** A login with the configured username and password, that made this token then. */
  ghost predicate IssuedBy(op: Operation, settings: Settings, token: Token, at: int) {
    && op.TryLogin? && op.login.username == settings.username && op.login.password == settings.password
    && op.login.token == Some(token) && op.login.now == at
  }

  /** Every session that is not logged out goes back to a login with the right credentials. */
  lemma {:induction false} SessionsNeedCredentials(start: int, settings: Settings, ops: seq<Operation>, token: Token)
    requires token in AfterAll(start, settings, ops).active
    ensures exists i :: 0 <= i < |ops|
              && IssuedBy(ops[i], settings, token, AfterAll(start, settings, ops).active[token])
  {
    var n := |ops| - 1;
    var before := AfterAll(start, settings, ops[..n]);
    var at := AfterAll(start, settings, ops).active[token];
    if IssuedBy(ops[n], settings, token, at) {
    } else {
      assert token in before.active && before.active[token] == at;
      SessionsNeedCredentials(start, settings, ops[..n], token);
      var i :| 0 <= i < n && IssuedBy(ops[..n][i], settings, token, at);
      assert IssuedBy(ops[i], settings, token, at);
    }
  }

  // ------------------------------------------------------------------
  // Every answer to a login, read off the login and the tables
  // ------------------------------------------------------------------

  /** The addresses with an attempt less than a minute back. */
  ghost function Busy(attempts: map<Address, seq<int>>, now: int): set<Address> {
    set key | key in attempts && exists i :: 0 <= i < |attempts[key]| && attempts[key][i] > now - MINUTE
  }

  ghost predicate TableFull(attempts: map<Address, seq<int>>, login: Login) {
    login.address !in attempts && |attempts| >= 1024 && |Busy(attempts, login.now)| >= 1024
  }

  ghost predicate HasSessionRoom(sessions: map<Token, int>, now: int) {
    |sessions| < 1024 || |set token | token in sessions && sessions[token] > now| < 1024
  }

  lemma {:induction false} SomeRecent(log: seq<int>, now: int)
    ensures Recent(log, now) != [] <==> exists i :: 0 <= i < |log| && log[i] > now - MINUTE
  {
    if log != [] {
      var n := |log| - 1;
      SomeRecent(log[..n], now);
      if i :| 0 <= i < n && log[..n][i] > now - MINUTE {
        assert log[i] > now - MINUTE;
      }
      if i :| 0 <= i < |log| && log[i] > now - MINUTE {
        assert i < n ==> log[..n][i] > now - MINUTE;
      }
    }
  }

  lemma CrowdedExactly(attempts: map<Address, seq<int>>, login: Login)
    ensures Crowded(attempts, login) <==> TableFull(attempts, login)
  {
    var pruned := Pruned(attempts, login.now);
    forall key ensures key in pruned <==> key in Busy(attempts, login.now) {
      if key in attempts {
        SomeRecent(attempts[key], login.now);
      }
    }
    assert pruned.Keys == Busy(attempts, login.now) && |pruned| == |pruned.Keys|;
  }

  lemma SessionRoomExactly(sessions: map<Token, int>, now: int)
    ensures |SessionRoom(sessions, now)| < 1024 <==> HasSessionRoom(sessions, now)
  {
    var lasting := Unexpired(sessions, now);
    assert lasting.Keys == set token | token in sessions && sessions[token] > now;
    assert |lasting| == |lasting.Keys|;
  }

  /**
    What the answer is once the limiter lets the credentials be compared: a
    session exactly for the configured username and the configured password,
    with room in the table and a token.
   */
  ghost predicate AnswersCredentials(result: Result, sessions: map<Token, int>, settings: Settings, login: Login) {
    var right := login.username == settings.username && login.password == settings.password;
    && (result.InvalidCredentials? <==> !right)
    && (result.SessionCapacityExhausted? <==> right && !HasSessionRoom(sessions, login.now))
    && (result.SessionCreationFailed? <==> right && HasSessionRoom(sessions, login.now) && login.token.None?)
    && (result.Issued? <==> right && HasSessionRoom(sessions, login.now) && login.token.Some?)
    && (result.Issued? ==> login.token == Some(result.token) && result.expires == login.now + settings.ttl)
  }

  lemma CredentialsAnswered(sessions: map<Token, int>, settings: Settings, login: Login)
    ensures AnswersCredentials(SessionResult(sessions, settings, login), sessions, settings, login)
  {
    SessionRoomExactly(sessions, login.now);
  }

  /**
    Over any run, every answer to a login: whether it is limited follows from
    the checked logins of the minute before, and everything else from the two
    credentials, the room and the token.
   */
  lemma LoginAnswersExactly(start: int, settings: Settings, ops: seq<Operation>, login: Login)
    requires Monotone(start, ops + [TryLogin(login)])
    ensures var r := AfterAll(start, settings, ops);
            var result := LoginResult(r.s, settings, login);
            var limited := TableFull(r.s.attempts, login) || InMinute(LogOf(r.checked, login.address), login.now) == 5;
            && (result.AuthenticationDisabled? <==> settings.username == "")
            && (result.LoginRateLimited? <==> settings.username != "" && limited)
            && (settings.username != "" && !limited ==> AnswersCredentials(result, r.s.sessions, settings, login))
  {
    var r := AfterAll(start, settings, ops);
    CrowdedExactly(r.s.attempts, login);
    CredentialsAnswered(r.s.sessions, settings, login);
    hide AnswersCredentials;
    if Required(settings) {
      RateLimitedExactly(start, settings, ops, login);
    }
  }

  /**
    What a login leaves in the session table: everything unless its credentials
    are right; nothing that lasts is lost then, and the new session is there.
   */
  lemma SessionsAfterLogin(s: State, settings: Settings, login: Login)
    ensures var after := LoggedIn(s, settings, login).sessions;
            var result := LoginResult(s, settings, login);
            && (result.AuthenticationDisabled? || result.LoginRateLimited? || result.InvalidCredentials? ==>
                  after == s.sessions)
            && forall token ::
                 if result.Issued? && token == result.token then token in after && after[token] == login.now + settings.ttl
                 else
                   && (token in after ==> token in s.sessions && after[token] == s.sessions[token])
                   && (token in s.sessions && s.sessions[token] > login.now ==> token in after)
  {
  }

  /** A request with a session that is over, and a logout, take exactly that session out of the table. */
  lemma SessionsAfterRequest(r: Run, settings: Settings, token: Token, now: int)
    ensures var checked := After(r, settings, Check(Some(token), now));
            && checked.s.attempts == r.s.attempts && checked.checked == r.checked && checked.active == r.active
            && checked.s.sessions
               == if settings.username != "" && token in r.s.sessions && r.s.sessions[token] <= now
                  then r.s.sessions - {token} else r.s.sessions
    ensures var left := After(r, settings, Logout(Some(token), now));
            && left.s.attempts == r.s.attempts && left.checked == r.checked
            && left.s.sessions == r.s.sessions - {token} && left.active == r.active - {token}
  {
    assert token !in r.s.sessions ==> r.s.sessions - {token} == r.s.sessions;
  }

  // ------------------------------------------------------------------
  // The object
  // ------------------------------------------------------------------

  /** The first `len` cells of a backing array. */
  datatype Slice = Slice(buffer: array<int>, len: nat) {
    ghost predicate Fits() {
      len <= buffer.Length
    }

    ghost function Contents(): seq<int>
      requires Fits()
      reads buffer
    {
      buffer[..len]
    }
  }

  /** Filters a log in place: the kept entries move to the front of the same array. */
  method KeepRecent(values: Slice, now: int) returns (kept: Slice)
    requires values.Fits()
    modifies values.buffer
    ensures kept.buffer == values.buffer && kept.Fits()
    ensures kept.Contents() == Recent(old(values.Contents()), now)
  {
    var n := 0;
    ghost var log := values.Contents();
    for i := 0 to values.len
      invariant n <= i
      invariant values.buffer[..n] == Recent(log[..i], now)
      invariant values.buffer[i..values.len] == log[i..]
    {
      var value := values.buffer[i];
      ghost var done := values.buffer[..n];
      assert value == values.buffer[i..values.len][0] == log[i];
      assert values.buffer[i + 1..values.len] == values.buffer[i..values.len][1..] == log[i + 1..];
      assert log[..i + 1][..i] == log[..i];
      if value > now - MINUTE {
        values.buffer[n] := value;
        n := n + 1;
        assert values.buffer[..n] == done + [value];
      } else {
        assert done + [] == done;
      }
    }
    assert log[..values.len] == log;
    kept := Slice(values.buffer, n);
  }

  /** Go's append: in place while the backing array has room, into a larger copy otherwise. */
  method Append(values: Slice, value: int) returns (longer: Slice)
    requires values.Fits()
    modifies values.buffer
    ensures longer.Fits() && longer.Contents() == old(values.Contents()) + [value]
    ensures longer.buffer == values.buffer || fresh(longer.buffer)
  {
    if values.len < values.buffer.Length {
      values.buffer[values.len] := value;
      longer := Slice(values.buffer, values.len + 1);
    } else {
      var copy := new int[2 * values.len + 1];
      for i := 0 to values.len
        invariant copy[..i] == values.buffer[..i]
        invariant values.Contents() == old(values.Contents())
      {
        copy[i] := values.buffer[i];
      }
      copy[values.len] := value;
      longer := Slice(copy, values.len + 1);
    }
  }

  function PrunedAt(logs: map<Address, seq<int>>, key: Address, now: int): map<Address, seq<int>>
    requires key in logs
  {
    if Recent(logs[key], now) == [] then logs - {key} else logs[key := Recent(logs[key], now)]
  }

  /** The table while pruning still has `todo` to visit. */
  ghost function Halfway(logs: map<Address, seq<int>>, todo: set<Address>, now: int): map<Address, seq<int>> {
    map key | key in logs && (key in todo || Recent(logs[key], now) != []) ::
      if key in todo then logs[key] else Recent(logs[key], now)
  }

  lemma HalfwayStep(logs: map<Address, seq<int>>, todo: set<Address>, key: Address, now: int)
    requires key in todo && todo <= logs.Keys
    ensures PrunedAt(Halfway(logs, todo, now), key, now) == Halfway(logs, todo - {key}, now)
  {
  }

  lemma HalfwayEnds(logs: map<Address, seq<int>>, now: int)
    ensures Halfway(logs, logs.Keys, now) == logs
    ensures Halfway(logs, {}, now) == Pruned(logs, now)
  {
  }

  lemma Overwritten(m: map<Address, seq<int>>, n: map<Address, seq<int>>, key: Address, log: seq<int>)
    requires m - {key} == n - {key}
    ensures m[key := log] == n[key := log]
  {
    forall k | k != key ensures k in m <==> k in n {
      assert k in m - {key} <==> k in n - {key};
    }
    forall k | k != key && k in m ensures m[k] == n[k] {
      assert (m - {key})[k] == (n - {key})[k];
    }
  }

  class Gate {
    const settings: Settings
    var attempts: map<Address, Slice>
    var sessions: map<Token, int>

    ghost function Buffers(): set<array<int>>
      reads this`attempts
    {
      set key | key in attempts :: attempts[key].buffer
    }

    /** Every address has a backing array of its own. */
    ghost predicate Valid()
      reads this`attempts
    {
      && (forall key :: key in attempts ==> attempts[key].Fits())
      && (forall a, b :: a in attempts && b in attempts && a != b ==> attempts[a].buffer != attempts[b].buffer)
    }

    ghost function Logs(): map<Address, seq<int>>
      requires Valid()
      reads this`attempts, Buffers()
    {
      map key | key in attempts :: attempts[key].Contents()
    }

    ghost function View(): State
      requires Valid()
      reads this, Buffers()
    {
      State(Logs(), sessions)
    }

    constructor (settings: Settings)
      ensures Valid() && View() == State(map[], map[]) && this.settings == settings
    {
      this.settings := settings;
      attempts, sessions := map[], map[];
    }

    /** Stores a slice whose backing array no other address uses. */
    method Store(key: Address, slice: Slice)
      requires Valid() && slice.Fits()
      requires forall k :: k in attempts && k != key ==> attempts[k].buffer != slice.buffer
      modifies this`attempts
      ensures Valid() && attempts == old(attempts)[key := slice]
      ensures Logs() == old(Logs())[key := slice.Contents()]
    {
      attempts := attempts[key := slice];
    }

    method Forget(key: Address)
      requires Valid()
      modifies this`attempts
      ensures Valid() && attempts == old(attempts) - {key}
      ensures Logs() == old(Logs()) - {key}
    {
      attempts := attempts - {key};
    }

    /** Filters one address's attempts in place; the entry itself is stale until it is stored or forgotten. */
    method RecentAttempts(key: Address, now: int) returns (recent: Slice)
      requires Valid() && key in attempts
      modifies attempts[key].buffer
      ensures Valid() && recent.Fits() && recent.buffer == attempts[key].buffer
      ensures recent.Contents() == Recent(old(Logs())[key], now)
      ensures Logs() - {key} == old(Logs()) - {key} && key in Logs()
    {
      recent := KeepRecent(attempts[key], now);
    }

    /** One turn of the pruning loop. */
    method PruneOne(key: Address, now: int)
      requires Valid() && key in attempts
      modifies this`attempts, attempts[key].buffer
      ensures Valid() && Buffers() <= old(Buffers())
      ensures Logs() == PrunedAt(old(Logs()), key, now)
    {
      ghost var logs := Logs();
      var recent := RecentAttempts(key, now);
      Overwritten(logs, Logs(), key, recent.Contents());
      if recent.len == 0 {
        Forget(key);
      } else {
        Store(key, recent);
      }
    }

    method PruneAttempts(now: int)
      requires Valid()
      modifies this`attempts, Buffers()
      ensures Valid() && Buffers() <= old(Buffers())
      ensures Logs() == Pruned(old(Logs()), now)
    {
      ghost var logs := Logs();
      ghost var buffers := Buffers();
      var todo := attempts.Keys;
      assert todo == logs.Keys;
      HalfwayEnds(logs, now);
      while todo != {}
        invariant Valid() && Buffers() <= buffers
        invariant todo <= logs.Keys
        invariant Logs() == Halfway(logs, todo, now)
        decreases todo
      {
        var key :| key in todo;
        assert key in Logs() && attempts[key].buffer in Buffers();
        HalfwayStep(logs, todo, key, now);
        todo := todo - {key};
        PruneOne(key, now);
      }
    }

    method RemoveExpired(now: int)
      modifies this`sessions
      ensures sessions == Unexpired(old(sessions), now)
    {
      var todo := sessions.Keys;
      while todo != {}
        invariant todo <= sessions.Keys <= old(sessions).Keys
        invariant forall token :: token in sessions ==> sessions[token] == old(sessions)[token]
        invariant forall token :: token in old(sessions) && token !in todo ==> (token in sessions <==> old(sessions)[token] > now)
        decreases |todo|
      {
        var token :| token in todo;
        todo := todo - {token};
        if sessions[token] <= now {
          sessions := sessions - {token};
        }
      }
    }

    /** The attempts of the login's address, filtered, ready to be stored. */
    method Look(key: Address, now: int) returns (recent: Slice)
      requires Valid()
      modifies set k | k in attempts && k == key :: attempts[k].buffer
      ensures Valid() && recent.Fits()
      ensures if key in attempts then recent.buffer == attempts[key].buffer else fresh(recent.buffer)
      ensures recent.Contents() == Recent(LogOf(old(Logs()), key), now)
      ensures Logs() - {key} == old(Logs()) - {key}
    {
      if key in attempts {
        recent := RecentAttempts(key, now);
      } else {
        var none := new int[0];
        recent := Slice(none, 0);
      }
    }

    method MakeRoom(login: Login) returns (crowded: bool)
      requires Valid()
      modifies this`attempts, Buffers()
      ensures Valid() && Buffers() <= old(Buffers())
      ensures Logs() == Room(old(Logs()), login) && crowded == Crowded(old(Logs()), login)
    {
      assert Logs().Keys == attempts.Keys && |Logs()| == |Logs().Keys| && |attempts| == |attempts.Keys|;
      crowded := false;
      if login.address !in attempts && |attempts| >= MAX_ATTEMPTS {
        PruneAttempts(login.now);
        assert Logs().Keys == attempts.Keys && |Logs()| == |Logs().Keys| && |attempts| == |attempts.Keys|;
        crowded := |attempts| >= MAX_ATTEMPTS;
      }
    }

    /** Appends in place or to a copy, then stores the result. */
    method StoreLonger(key: Address, recent: Slice, now: int)
      requires Valid() && recent.Fits()
      requires forall k :: k in attempts && k != key ==> attempts[k].buffer != recent.buffer
      modifies this`attempts, recent.buffer
      ensures Valid()
      ensures Logs() == old(Logs())[key := old(recent.Contents()) + [now]]
    {
      ghost var logs := Logs();
      var longer := Append(recent, now);
      assert forall k :: k in attempts && k != key ==> Logs()[k] == logs[k];
      assert Logs() - {key} == logs - {key};
      Overwritten(logs, Logs(), key, longer.Contents());
      Store(key, longer);
    }

    method Remember(login: Login) returns (checked: bool)
      requires Valid()
      modifies this`attempts, Buffers()
      ensures Valid()
      ensures var recent := Recent(LogOf(old(Logs()), login.address), login.now);
              && checked == (|recent| < MAX_RECENT)
              && Logs() == old(Logs())[login.address := if checked then recent + [login.now] else recent]
    {
      ghost var logs := Logs();
      assert forall k :: k in attempts ==> attempts[k].buffer in Buffers();
      var recent := Look(login.address, login.now);
      checked := recent.len < MAX_RECENT;
      if checked {
        Overwritten(logs, Logs(), login.address, recent.Contents() + [login.now]);
        StoreLonger(login.address, recent, login.now);
      } else {
        Overwritten(logs, Logs(), login.address, recent.Contents());
        Store(login.address, recent);
      }
    }

    /** The rate limit: counts the login as an attempt unless it is refused. */
    method CountAttempt(login: Login) returns (checked: bool)
      requires Valid()
      modifies this`attempts, Buffers()
      ensures Valid()
      ensures Logs() == LoginAttempts(old(Logs()), login) && checked == Checked(old(Logs()), login)
    {
      var crowded := MakeRoom(login);
      if crowded {
        return false;
      }
      checked := Remember(login);
    }

    method OpenSession(login: Login) returns (result: Result)
      modifies this`sessions
      ensures result == SessionResult(old(sessions), settings, login)
      ensures sessions == Opened(old(sessions), settings, login)
      ensures AnswersCredentials(result, old(sessions), settings, login)
      ensures result.InvalidCredentials? ==> sessions == old(sessions)
    {
      CredentialsAnswered(sessions, settings, login);
      hide AnswersCredentials;
      if login.username != settings.username || login.password != settings.password {
        return InvalidCredentials;
      }
      if |sessions| >= MAX_SESSIONS {
        RemoveExpired(login.now);
        if |sessions| >= MAX_SESSIONS {
          return SessionCapacityExhausted;
        }
      }
      if login.token.None? {
        return SessionCreationFailed;
      }
      var expires := login.now + settings.ttl;
      sessions := sessions[login.token.value := expires];
      return Issued(login.token.value, expires);
    }

    method TryLogin(login: Login) returns (result: Result)
      requires Valid()
      modifies this, Buffers()
      ensures Valid()
      ensures result == LoginResult(old(View()), settings, login)
      ensures View() == LoggedIn(old(View()), settings, login)
      ensures result.AuthenticationDisabled? <==> settings.username == ""
      ensures settings.username != "" && !result.LoginRateLimited? ==>
                AnswersCredentials(result, old(sessions), settings, login)
      ensures result.Issued? ==>
                && login.username == settings.username && login.password == settings.password
                && login.token == Some(result.token) && result.token in sessions
                && sessions[result.token] == login.now + settings.ttl
      ensures result.LoginRateLimited? || result.InvalidCredentials? ==> sessions == old(sessions)
    {
      hide HasSessionRoom;
      if settings.username == "" {
        return AuthenticationDisabled;
      }
      var checked := CountAttempt(login);
      if checked {
        result := OpenSession(login);
      } else {
        result := LoginRateLimited;
      }
      assert Logs() == LoginAttempts(old(Logs()), login);
    }

    method Check(cookie: Option<Token>, now: int) returns (admitted: bool)
      requires Valid()
      modifies this`sessions
      ensures Valid()
      ensures admitted == Admits(old(View()), settings, cookie, now)
      ensures View() == AfterCheck(old(View()), settings, cookie, now)
      ensures admitted <==>
        (settings.username == "" || (cookie.Some? && cookie.value in old(sessions) && old(sessions)[cookie.value] > now))
      ensures sessions == if admitted || cookie.None? then old(sessions) else old(sessions) - {cookie.value}
    {
      if settings.username == "" {
        return true;
      }
      if cookie.None? {
        return false;
      }
      if cookie.value !in sessions || sessions[cookie.value] <= now {
        sessions := sessions - {cookie.value};
        return false;
      }
      return true;
    }

    method Logout(cookie: Option<Token>)
      requires Valid()
      modifies this`sessions
      ensures Valid() && View() == LoggedOut(old(View()), cookie)
      ensures sessions == if cookie.Some? then old(sessions) - {cookie.value} else old(sessions)
    {
      if cookie.None? {
        return;
      }
      sessions := sessions - {cookie.value};
    }
  }
}
