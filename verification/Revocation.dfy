/** A logged-out token never works again. */
module Revocation {
  import opened Bytes
  import opened Database

  datatype Action =
    | LoginAction(now: int)
    | LogoutAction(token: Token, now: int)
    | VerifyAction(token: Token, now: int)

  function Step(r: Revoked, a: Action): Revoked {
    match a
    case LoginAction(now) => CleanRevoked(r, now)
    case LogoutAction(t, now) => Logout(r, t, now).0
    case VerifyAction(_, _) => r
  }

  function Run(r: Revoked, run: seq<Action>): Revoked
    decreases |run|
  {
    if run == [] then r else Run(Step(r, run[0]), run[1..])
  }

  /** The clock never runs backwards. */
  predicate ClockOk(start: int, run: seq<Action>)
    decreases |run|
  {
    run == [] || (start <= run[0].now && ClockOk(run[0].now, run[1..]))
  }

  function EndTime(start: int, run: seq<Action>): int {
    if run == [] then start else run[|run| - 1].now
  }

  /** A token that can never be accepted again: expired, or revoked with its own expiration. */
  predicate Dead(r: Revoked, t: Token, now: int) {
    now >= t.expiration ||
    ((t.userId, t.tokenId) in r && r[(t.userId, t.tokenId)] == t.expiration)
  }

  lemma StaysDead(r: Revoked, t: Token, now: int, a: Action)
    requires Dead(r, t, now) && now <= a.now
    ensures Dead(Step(r, a), t, a.now)
  {
  }

  lemma {:induction false} RunStaysDead(r: Revoked, t: Token, now: int, run: seq<Action>)
    requires Dead(r, t, now) && ClockOk(now, run)
    ensures Dead(Run(r, run), t, EndTime(now, run))
    decreases |run|
  {
    hide Step, Dead;
    if run != [] {
      StaysDead(r, t, now, run[0]);
      RunStaysDead(Step(r, run[0]), t, run[0].now, run[1..]);
    }
  }

  /** After a successful logout no run of logins, logouts, cleanups and checks under a clock
      that does not run backwards makes the token verify again. */
  lemma RevocationIsPermanent(r: Revoked, t: Token, now: int, run: seq<Action>, later: int)
    requires Logout(r, t, now).1.Ok? && ClockOk(now, run) && EndTime(now, run) <= later
    ensures Verify(Run(Logout(r, t, now).0, run), t, later) == Err(Unauthorized)
  {
    var r' := Logout(r, t, now).0;
    assert Dead(r', t, now);
    RunStaysDead(r', t, now, run);
  }

  /** The row stands with this expiration time. */
  predicate Stands(r: Revoked, k: (nat, string), expiration: int) {
    k in r && r[k] == expiration
  }

  lemma {:induction false} StaysGone(r: Revoked, k: (nat, string), expiration: int, now: int, run: seq<Action>)
    requires !Stands(r, k, expiration) && now >= expiration && ClockOk(now, run)
    ensures !Stands(Run(r, run), k, expiration)
    decreases |run|
  {
    if run != [] {
      StaysGone(Step(r, run[0]), k, expiration, run[0].now, run[1..]);
    }
  }

  lemma RowStep(r: Revoked, k: (nat, string), expiration: int, a: Action)
    requires Stands(r, k, expiration)
    ensures Stands(Step(r, a), k, expiration) <==> !(a.LoginAction? && a.now == expiration)
  {
  }

  predicate CleansAt(run: seq<Action>, expiration: int) {
    exists i :: 0 <= i < |run| && run[i].LoginAction? && run[i].now == expiration
  }

  /** The cleanup removes a row exactly if a login happens in the very second the row expires;
      once that second has passed the row stays for good. */
  lemma {:induction false} RowRemovedIff(r: Revoked, k: (nat, string), expiration: int, start: int, run: seq<Action>)
    requires Stands(r, k, expiration) && ClockOk(start, run)
    ensures !Stands(Run(r, run), k, expiration) <==> CleansAt(run, expiration)
    decreases |run|
  {
    hide Step, Stands;
    if run != [] {
      var a, rest := run[0], run[1..];
      RowStep(r, k, expiration, a);
      if a.LoginAction? && a.now == expiration {
        StaysGone(Step(r, a), k, expiration, a.now, rest);
      } else {
        RowRemovedIff(Step(r, a), k, expiration, a.now, rest);
        assert CleansAt(rest, expiration) ==> CleansAt(run, expiration) by {
          if CleansAt(rest, expiration) {
            var i :| 0 <= i < |rest| && rest[i].LoginAction? && rest[i].now == expiration;
            assert run[i + 1] == rest[i];
          }
        }
        assert CleansAt(run, expiration) ==> CleansAt(rest, expiration) by {
          if CleansAt(run, expiration) {
            var i :| 0 <= i < |run| && run[i].LoginAction? && run[i].now == expiration;
            assert rest[i - 1] == run[i];
          }
        }
      }
    }
  }

  // ---- how long a token works ----

  /** The run logs this user and token out. */
  predicate LogsOut(run: seq<Action>, userId: nat, tokenId: string) {
    exists i :: 0 <= i < |run| && run[i].LogoutAction?
                && run[i].token.userId == userId && run[i].token.tokenId == tokenId
  }

  lemma StaysUnrevoked(r: Revoked, userId: nat, tokenId: string, a: Action)
    requires (userId, tokenId) !in r
    requires a.LogoutAction? ==> a.token.userId != userId || a.token.tokenId != tokenId
    ensures (userId, tokenId) !in Step(r, a)
  {
  }

  lemma LogsOutLater(run: seq<Action>, userId: nat, tokenId: string)
    requires run != [] && LogsOut(run[1..], userId, tokenId)
    ensures LogsOut(run, userId, tokenId)
  {
    var i :| 0 <= i < |run[1..]| && run[1..][i].LogoutAction?
             && run[1..][i].token.userId == userId && run[1..][i].token.tokenId == tokenId;
    assert run[i + 1] == run[1..][i];
  }

  lemma {:induction false} RunStaysUnrevoked(r: Revoked, userId: nat, tokenId: string, run: seq<Action>)
    requires (userId, tokenId) !in r && !LogsOut(run, userId, tokenId)
    ensures (userId, tokenId) !in Run(r, run)
    decreases |run|
  {
    hide Step;
    if run != [] {
      StaysUnrevoked(r, userId, tokenId, run[0]);
      if LogsOut(run[1..], userId, tokenId) {
        LogsOutLater(run, userId, tokenId);
      }
      RunStaysUnrevoked(Step(r, run[0]), userId, tokenId, run[1..]);
    }
  }

  /** The token that a login issues is accepted for a day, in every run without a logout of it,
      and refused from the end of that day on, whatever the run was. */
  lemma TokenWorksForADay(r: Revoked, userId: nat, tokenId: string, now: int, run: seq<Action>, later: int)
    requires (userId, tokenId) !in r && !LogsOut(run, userId, tokenId)
    ensures Verify(Run(CleanRevoked(r, now), run), Token(userId, tokenId, now + LIFETIME), later) ==
            if later < now + 86400 then Ok(()) else Err(Unauthorized)
  {
    RunStaysUnrevoked(CleanRevoked(r, now), userId, tokenId, run);
  }

  /** A token has at most one row: the first insertion adds it, every further one is refused. */
  lemma RevokedOnce(r: Revoked, t: Token)
    ensures var first := InsertRevoked(r, t);
            && (first.Ok? <==> (t.userId, t.tokenId) !in r)
            && (first.Ok? ==> Stands(first.value, (t.userId, t.tokenId), t.expiration)
                              && InsertRevoked(first.value, t) == Err(AlreadyExists))
  {
  }

  /** A logout is accepted exactly while its token works, its row is then there, and no other
      row has changed. */
  lemma LogoutWorksIff(r: Revoked, t: Token, now: int)
    ensures var (r', ok) := Logout(r, t, now);
            && (ok == Ok(()) <==> now < t.expiration && (t.userId, t.tokenId) !in r)
            && (ok != Ok(()) ==> ok == Err(Unauthorized) && r' == r)
            && (ok == Ok(()) ==> Stands(r', (t.userId, t.tokenId), t.expiration) && r' - {(t.userId, t.tokenId)} == r)
  {
  }

  /** From the login on: the token works until it is logged out or a day has passed, the first
      logout in that time is accepted, and after it the token is refused for good. */
  lemma TokenLife(r: Revoked, userId: nat, tokenId: string, now: int, run: seq<Action>, time: int, rest: seq<Action>,
                  later: int)
    requires (userId, tokenId) !in r && !LogsOut(run, userId, tokenId)
    requires time < now + 86400 && ClockOk(time, rest) && EndTime(time, rest) <= later
    ensures var t := Token(userId, tokenId, now + LIFETIME);
            var r1 := Run(CleanRevoked(r, now), run);
            var (r2, ok) := Logout(r1, t, time);
            && Verify(r1, t, time) == Ok(()) && ok == Ok(())
            && Verify(Run(r2, rest), t, later) == Err(Unauthorized)
  {
    hide Run, ClockOk, LogsOut;
    var t := Token(userId, tokenId, now + LIFETIME);
    var r1 := Run(CleanRevoked(r, now), run);
    TokenWorksForADay(r, userId, tokenId, now, run, time);
    RunStaysUnrevoked(CleanRevoked(r, now), userId, tokenId, run);
    LogoutWorksIff(r1, t, time);
    RevocationIsPermanent(r1, t, time, rest, later);
  }
}
