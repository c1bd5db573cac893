/**
 Browser sessions: issued, loaded, revoked, and deleted by the retention cleanup. A token stands for its hash, and
 times are integers on one clock.
 */
module BrowserSessions {
  import opened Wrappers

  datatype Row = Row(csrf: int, user: int, version: int, expires: int, revoked: Option<int>)

  type Rows = map<int, Row>

  datatype User = User(version: int, active: bool)

  type Users = map<int, User>

  datatype Outcome = NoSession | Invalid | CsrfFailed | Loaded(user: int)

  datatype Operation =
    | Load(cookie: Option<int>, mutating: bool, csrf: Option<int>)
    | Issue(user: int, cookie: Option<int>, issued: int, issuedCsrf: int)
    | RevokeUser(user: int)
    | ChangeUser(user: int, to: User)
    | Cleanup

  datatype Config = Config(minutes: int, retention: int)

  predicate Alive(row: Row, now: int) {
    row.revoked.None? && row.expires > now
  }

  function LiveRow(rows: Rows, token: int, now: int): Option<Row> {
    if token in rows && Alive(rows[token], now) then Some(rows[token]) else None
  }

  function Revoked(rows: Rows, token: int, now: int): Rows {
    if token in rows && rows[token].revoked.None? then rows[token := rows[token].(revoked := Some(now))] else rows
  }

  function WithoutUser(rows: Rows, user: int, now: int): Rows {
    map token | token in rows ::
      if rows[token].user == user && rows[token].revoked.None? then rows[token].(revoked := Some(now)) else rows[token]
  }

  predicate Expired(row: Row, cutoff: int) {
    row.expires < cutoff || (row.revoked.Some? && row.revoked.value < cutoff)
  }

  function Kept(rows: Rows, cutoff: int): Rows {
    map token | token in rows && !Expired(rows[token], cutoff) :: rows[token]
  }

  predicate UserStillFits(users: Users, row: Row) {
    row.user in users && users[row.user].active && users[row.user].version == row.version
  }

  predicate CsrfFits(row: Row, mutating: bool, csrf: Option<int>) {
    mutating ==> csrf == Some(row.csrf)
  }

  function LoadOutcome(rows: Rows, users: Users, o: Operation, now: int): Outcome
    requires o.Load?
  {
    if o.cookie.None? then NoSession
    else
      var row := LiveRow(rows, o.cookie.value, now);
      if row.None? || !UserStillFits(users, row.value) then Invalid
      else if !CsrfFits(row.value, o.mutating, o.csrf) then CsrfFailed
      else Loaded(row.value.user)
  }

  datatype State = State(rows: Rows, users: Users)

  function Next(c: Config, s: State, o: Operation, now: int): State {
    match o
    case Load(cookie, _, _) =>
      var row := if cookie.Some? then LiveRow(s.rows, cookie.value, now) else None;
      if row.Some? && !UserStillFits(s.users, row.value) then s.(rows := Revoked(s.rows, cookie.value, now)) else s
    case Issue(user, cookie, issued, issuedCsrf) =>
      if user !in s.users then s
      else
        var before := if cookie.Some? then Revoked(s.rows, cookie.value, now) else s.rows;
        s.(rows := before[issued := Row(issuedCsrf, user, s.users[user].version, now + c.minutes * 60, None)])
    case RevokeUser(user) => s.(rows := WithoutUser(s.rows, user, now))
    case ChangeUser(user, to) => s.(users := s.users[user := to])
    case Cleanup => s.(rows := Kept(s.rows, now - c.retention))
  }

  // ---------------------------------------------------------------- What the requests do, row by row

  /** The session of the token is in time and not revoked. */
  ghost predicate InForce(rows: Rows, token: int, now: int) {
    token in rows && rows[token].revoked == None && now < rows[token].expires
  }

  /** The user of the session is still there, active, and has not changed what the session was issued for. */
  ghost predicate Entitled(rows: Rows, users: Users, token: int) {
    token in rows && rows[token].user in users && users[rows[token].user] == User(rows[token].version, true)
  }

  /** Which of the four answers a request gets. */
  lemma LoadsExactly(rows: Rows, users: Users, o: Operation, now: int)
    requires o.Load?
    ensures var outcome := LoadOutcome(rows, users, o, now);
            && (outcome == NoSession <==> o.cookie == None)
            && (o.cookie != None ==>
                  var token := o.cookie.value;
                  && (outcome == Invalid <==> !InForce(rows, token, now) || !Entitled(rows, users, token))
                  && (outcome == CsrfFailed <==>
                        && InForce(rows, token, now) && Entitled(rows, users, token)
                        && o.mutating && o.csrf != Some(rows[token].csrf))
                  && (forall user :: outcome == Loaded(user) <==>
                        && InForce(rows, token, now) && Entitled(rows, users, token) && user == rows[token].user
                        && (o.mutating ==> o.csrf == Some(rows[token].csrf))))
  {
  }

  /** The row as it was, or revoked at `now` where `ends` holds. */
  ghost predicate EndsIf(before: Rows, after: Rows, token: int, now: int, ends: bool) {
    token in before && token in after && after[token] ==
      if ends then Row(before[token].csrf, before[token].user, before[token].version, before[token].expires, Some(now))
      else before[token]
  }

  /** Which rows an operation adds, revokes or deletes; all others stay as they are. */
  ghost predicate Does(c: Config, s: State, o: Operation, now: int, rows: Rows) {
    match o
    case Load(cookie, _, _) =>
      && rows.Keys == s.rows.Keys
      && forall token :: token in rows ==>
           EndsIf(s.rows, rows, token, now,
                  cookie == Some(token) && InForce(s.rows, token, now) && !Entitled(s.rows, s.users, token))
    case Issue(user, cookie, issued, issuedCsrf) =>
      if user !in s.users then rows == s.rows
      else
        && rows.Keys == s.rows.Keys + {issued}
        && rows[issued] == Row(issuedCsrf, user, s.users[user].version, now + 60 * c.minutes, None)
        && forall token :: token in s.rows && token != issued ==>
             EndsIf(s.rows, rows, token, now, cookie == Some(token) && s.rows[token].revoked == None)
    case RevokeUser(user) =>
      && rows.Keys == s.rows.Keys
      && forall token :: token in rows ==>
           EndsIf(s.rows, rows, token, now, s.rows[token].user == user && s.rows[token].revoked == None)
    case ChangeUser(_, _) => rows == s.rows
    case Cleanup =>
      forall token ::
        && (token in rows ==> token in s.rows && rows[token] == s.rows[token])
        && (token in rows <==>
              && token in s.rows && now <= s.rows[token].expires + c.retention
              && (s.rows[token].revoked == None || now <= s.rows[token].revoked.value + c.retention))
  }

  lemma StepsDoExactly(c: Config, s: State, o: Operation, now: int)
    ensures Does(c, s, o, now, Next(c, s, o, now).rows)
    ensures Next(c, s, o, now).users == if o.ChangeUser? then s.users[o.user := o.to] else s.users
  {
  }

  // ---------------------------------------------------------------- The handlers

  class Store {
    const config: Config
    var rows: Rows
    var users: Users

    constructor (config: Config)
      ensures rows == map[] && users == map[] && this.config == config
    {
      this.config, rows, users := config, map[], map[];
    }

    /** `load_browser_session`. */
    method LoadSession(cookie: Option<int>, mutating: bool, csrf: Option<int>, now: int) returns (outcome: Outcome)
      modifies `rows
      ensures outcome == LoadOutcome(old(rows), users, Load(cookie, mutating, csrf), now)
      ensures rows == Next(config, State(old(rows), users), Load(cookie, mutating, csrf), now).rows
    {
      if cookie.None? {
        return NoSession;
      }
      var token := cookie.value;
      if token !in rows || rows[token].revoked.Some? || rows[token].expires <= now {
        return Invalid;
      }
      var session := rows[token];
      if session.user !in users || !users[session.user].active || session.version != users[session.user].version {
        rows := rows[token := session.(revoked := Some(now))];
        return Invalid;
      }
      if mutating {
        if csrf.None? || csrf.value != session.csrf {
          return CsrfFailed;
        }
      }
      return Loaded(session.user);
    }

    /** `issue_browser_session`: the session of the presented cookie is rotated out. */
    method IssueSession(user: int, cookie: Option<int>, issued: int, issuedCsrf: int, now: int)
      requires user in users
      modifies `rows
      ensures rows == Next(config, State(old(rows), users), Issue(user, cookie, issued, issuedCsrf), now).rows
    {
      if cookie.Some? && cookie.value in rows {
        var existing := rows[cookie.value];
        if existing.revoked.None? {
          rows := rows[cookie.value := existing.(revoked := Some(now))];
        }
      }
      rows := rows[issued := Row(issuedCsrf, user, users[user].version, now + config.minutes * 60, None)];
    }

    /** `revoke_all_user_sessions`: `open` is the answer of the query for the user's unrevoked sessions. */
    method RevokeAll(user: int, open: seq<int>, now: int)
      requires forall i :: 0 <= i < |open| ==>
        open[i] in rows && rows[open[i]].user == user && rows[open[i]].revoked.None?
      requires forall token :: token in rows && rows[token].user == user && rows[token].revoked.None? ==> token in open
      modifies `rows
      ensures rows == WithoutUser(old(rows), user, now)
    {
      for i := 0 to |open|
        invariant rows.Keys == old(rows).Keys
        invariant forall token :: token in old(rows) ==>
          rows[token] == if token in open[..i] then old(rows)[token].(revoked := Some(now)) else old(rows)[token]
      {
        assert open[i] in open && open[..i + 1] == open[..i] + [open[i]];
        rows := rows[open[i] := rows[open[i]].(revoked := Some(now))];
      }
      assert open[..|open|] == open;
      forall token | token in old(rows)
        ensures rows[token] == WithoutUser(old(rows), user, now)[token]
      {
        if token in open {
          var i :| 0 <= i < |open| && open[i] == token;
          assert old(rows)[open[i]].user == user;
        }
      }
      assert rows.Keys == old(rows).Keys == WithoutUser(old(rows), user, now).Keys;
      assert forall token :: token in rows <==> token in WithoutUser(old(rows), user, now);
    }

    /** `cleanup_auth_state`, for sessions. */
    method CleanUp(now: int)
      modifies `rows
      ensures rows == Next(config, State(old(rows), users), Cleanup, now).rows
    {
      var cutoff := now - config.retention;
      rows := map token | token in rows && !Expired(rows[token], cutoff) :: rows[token];
    }
  }

  // ---------------------------------------------------------------- Runs

  datatype Timed = Timed(operation: Operation, now: int)

  predicate Clocked(run: seq<Timed>, start: int) {
    (run != [] ==> start <= run[0].now) && forall i, j :: 0 <= i < j < |run| ==> run[i].now <= run[j].now
  }

  function After(c: Config, s: State, run: seq<Timed>): State
    decreases |run|
  {
    if run == [] then s else After(c, Next(c, s, run[0].operation, run[0].now), run[1..])
  }

  /** What the requests of a run are answered. */
  function Outcomes(c: Config, s: State, run: seq<Timed>): seq<Outcome>
    decreases |run|
  {
    if run == [] then []
    else
      (if run[0].operation.Load? then [LoadOutcome(s.rows, s.users, run[0].operation, run[0].now)] else [])
      + Outcomes(c, Next(c, s, run[0].operation, run[0].now), run[1..])
  }

  function WithoutCleanups(run: seq<Timed>): seq<Timed> {
    if run == [] then []
    else (if run[0].operation.Cleanup? then [] else [run[0]]) + WithoutCleanups(run[1..])
  }

  /** The two stores have the same live sessions from `now` on. */
  ghost predicate Alike(a: State, b: State, now: int) {
    a.users == b.users && forall token :: LiveRow(a.rows, token, now) == LiveRow(b.rows, token, now)
  }

  lemma AlikeLater(a: State, b: State, now: int, later: int)
    requires Alike(a, b, now) && now <= later
    ensures Alike(a, b, later)
  {
    forall token
      ensures LiveRow(a.rows, token, later) == LiveRow(b.rows, token, later)
    {
      assert LiveRow(a.rows, token, now) == LiveRow(b.rows, token, now);
    }
  }

  /** What a step other than a cleanup does to a live session depends on that session alone. */
  lemma NextKeepsAlike(c: Config, a: State, b: State, o: Operation, now: int)
    requires Alike(a, b, now)
    ensures Alike(Next(c, a, o, now), Next(c, b, o, now), now)
    ensures o.Load? ==> LoadOutcome(a.rows, a.users, o, now) == LoadOutcome(b.rows, b.users, o, now)
  {
    forall token
      ensures LiveRow(Next(c, a, o, now).rows, token, now) == LiveRow(Next(c, b, o, now).rows, token, now)
    {
      assert LiveRow(a.rows, token, now) == LiveRow(b.rows, token, now);
      if o.Load? && o.cookie.Some? {
        assert LiveRow(a.rows, o.cookie.value, now) == LiveRow(b.rows, o.cookie.value, now);
      }
      if o.Cleanup? {
        CleanupKeepsLive(c, a, token, now);
        CleanupKeepsLive(c, b, token, now);
      }
    }
  }

  lemma CleanupKeepsLive(c: Config, s: State, token: int, now: int)
    ensures c.retention >= 0 ==> LiveRow(Next(c, s, Cleanup, now).rows, token, now) == LiveRow(s.rows, token, now)
  {
  }

  /** Retention cleanup is invisible: leaving out every cleanup of a run changes none of its answers. */
  lemma {:induction false} CleanupIsInvisible(c: Config, a: State, b: State, run: seq<Timed>, start: int)
    requires c.retention >= 0 && Alike(a, b, start) && Clocked(run, start)
    ensures Outcomes(c, a, run) == Outcomes(c, b, WithoutCleanups(run))
    decreases |run|
  {
    if run != [] {
      var now, o := run[0].now, run[0].operation;
      AlikeLater(a, b, start, now);
      assert Clocked(run[1..], now);
      if o.Cleanup? {
        forall token
          ensures LiveRow(Next(c, a, o, now).rows, token, now) == LiveRow(b.rows, token, now)
        {
          CleanupKeepsLive(c, a, token, now);
        }
        CleanupIsInvisible(c, Next(c, a, o, now), b, run[1..], now);
        assert WithoutCleanups(run) == WithoutCleanups(run[1..]);
        assert Outcomes(c, a, run) == Outcomes(c, Next(c, a, o, now), run[1..]);
      } else {
        NextKeepsAlike(c, a, b, o, now);
        CleanupIsInvisible(c, Next(c, a, o, now), Next(c, b, o, now), run[1..], now);
        var rest := WithoutCleanups(run);
        assert rest[0] == run[0] && rest[1..] == WithoutCleanups(run[1..]);
        hide Next, LoadOutcome, Alike;
        var first := if o.Load? then [LoadOutcome(b.rows, b.users, o, now)] else [];
        assert Outcomes(c, b, rest) == first + Outcomes(c, Next(c, b, o, now), rest[1..]);
      }
    }
  }

  /** The run never hands the token out. */
  predicate NeverIssues(run: seq<Timed>, token: int) {
    forall i :: 0 <= i < |run| && run[i].operation.Issue? ==> run[i].operation.issued != token
  }

  /** A token that is dead at some time stays dead through every run that does not hand it out again. */
  lemma {:induction false} DeadTokensStayDead(c: Config, s: State, run: seq<Timed>, token: int, start: int)
    requires LiveRow(s.rows, token, start) == None && Clocked(run, start) && NeverIssues(run, token)
    ensures LiveRow(After(c, s, run).rows, token, if run == [] then start else run[|run| - 1].now) == None
    decreases |run|
  {
    if run != [] {
      var next := Next(c, s, run[0].operation, run[0].now);
      assert LiveRow(next.rows, token, run[0].now) == None;
      assert Clocked(run[1..], run[0].now) && NeverIssues(run[1..], token);
      DeadTokensStayDead(c, next, run[1..], token, run[0].now);
    }
  }

  /** After revoking all sessions of a user, none of them ever loads again. */
  lemma RevokedSessionsNeverLoad(c: Config, s: State, user: int, token: int, now: int, run: seq<Timed>, o: Operation,
                                 later: int)
    requires token in s.rows && s.rows[token].user == user
    requires Clocked(run, now) && NeverIssues(run, token) && (if run == [] then now else run[|run| - 1].now) <= later
    requires o.Load? && o.cookie == Some(token)
    ensures var end := After(c, Next(c, s, RevokeUser(user), now), run);
            LoadOutcome(end.rows, end.users, o, later) == Invalid
  {
    DeadTokensStayDead(c, Next(c, s, RevokeUser(user), now), run, token, now);
  }
}
