/** Refreshes as two transactions' halves: the read of the stored token, and the commit that writes it back
    with its successor. Nothing locks the row in between. */
module RotationRace {
  import opened Values
  import opened RefreshTokens

  /** `Commit` names the position of its read in the run. A login is one step. */
  datatype Event =
    | LogIn(request: Request)
    | Read(request: Request)
    | Commit(read: nat)

  /** A refresh between its halves: the token as it was read, and what is to replace it. */
  datatype Open = Open(stored: Token, minted: Parts, now: Time)

  datatype Desk = Desk(tokens: Tokens, open: map<nat, Open>)

  datatype Answer = Admitted | Done | Refused | Collided

  /** The `at`-th event. A commit writes the token as it was read, revoked. */
  function Step(config: Config, desk: Desk, at: nat, e: Event): (Desk, Answer) {
    match e
    case LogIn(request) =>
      if !request.Login? || request.minted.jti in desk.tokens then (desk, Collided)
      else (desk.(tokens := Serve(config, desk.tokens, request).0), Done)
    case Read(request) =>
      if !request.Refresh? then (desk, Refused)
      else
        var presented := Presented(config, desk.tokens, request.token);
        if presented.None? || !presented.value.IsActive(request.now) then (desk, Refused)
        else (desk.(open := desk.open[at := Open(presented.value, request.minted, request.now)]), Admitted)
    case Commit(read) =>
      if read !in desk.open then (desk, Refused)
      else
        var o := desk.open[read];
        var closed := desk.(open := desk.open - {read});
        if o.minted.jti in desk.tokens then (closed, Collided)
        else
          var successor := Issue(o.minted.jti, o.stored.user, config.digest(o.minted.secret), o.now, config.ttl);
          (closed.(tokens := desk.tokens[o.stored.jti := o.stored.Revoked(o.now)][o.minted.jti := successor]), Done)
  }

  function At(config: Config, run: seq<Event>, n: nat): Desk
    requires n <= |run|
  {
    if n == 0 then Desk(map[], map[]) else Step(config, At(config, run, n - 1), n - 1, run[n - 1]).0
  }

  function AnswerAt(config: Config, run: seq<Event>, n: nat): Answer
    requires n < |run|
  {
    Step(config, At(config, run, n), n, run[n]).1
  }

  /** A read whose commit follows at once is the refresh of the serialized model. */
  lemma ReadThenCommitIsServe(config: Config, desk: Desk, at: nat, request: Request)
    requires request.Refresh? && KeyedByJti(desk.tokens) && at !in desk.open
    ensures var (read, admitted) := Step(config, desk, at, Read(request));
            var (done, answer) := Step(config, read, at + 1, Commit(at));
            var (after, outcome) := Serve(config, desk.tokens, request);
            && done == desk.(tokens := after)
            && (outcome.Granted? <==> answer.Done?)
            && (outcome.InvalidRefreshToken? <==> admitted.Refused?)
  {
    var read := Step(config, desk, at, Read(request)).0;
    assert read.open - {at} == desk.open;
  }

  /** The commit of a refresh of this token, granted. */
  ghost predicate SpendsAt(config: Config, run: seq<Event>, c: nat, jti: Jti)
    requires c < |run|
  {
    && run[c].Commit? && AnswerAt(config, run, c).Done?
    && run[c].read in At(config, run, c).open && At(config, run, c).open[run[c].read].stored.jti == jti
  }

  ghost predicate SpentBefore(config: Config, run: seq<Event>, n: nat, jti: Jti)
    requires n <= |run|
  {
    exists c :: 0 <= c < n && SpendsAt(config, run, c, jti)
  }

  /** Open refreshes are those of reads of the run, each of a token that was unrevoked when read. */
  ghost predicate OpenSound(run: seq<Event>, n: nat, desk: Desk)
    requires n <= |run|
  {
    forall r :: r in desk.open ==>
      && r < n && run[r].Read? && Names(run[r].request) == Some(desk.open[r].stored.jti)
      && desk.open[r].stored.revokedAt.None? && desk.open[r].stored.jti in desk.tokens
      && desk.open[r].minted == run[r].request.minted
  }

  lemma {:induction false} OpenIsSound(config: Config, run: seq<Event>, n: nat)
    requires n <= |run|
    ensures KeyedByJti(At(config, run, n).tokens) && OpenSound(run, n, At(config, run, n))
  {
    if n > 0 {
      var desk := At(config, run, n - 1);
      OpenIsSound(config, run, n - 1);
      StepKeepsKeys(config, desk, n - 1, run[n - 1]);
      if run[n - 1].Read? {
        ReadIsSound(config, run, n - 1, desk);
      } else {
        NothingOpens(config, desk, n - 1, run[n - 1]);
        FewerAreSound(run, n - 1, desk, At(config, run, n));
      }
    }
  }

  lemma NothingOpens(config: Config, desk: Desk, at: nat, e: Event)
    requires !e.Read?
    ensures var after := Step(config, desk, at, e).0; forall r :: r in after.open ==> r in desk.open && after.open[r] == desk.open[r]
  {
  }

  lemma FewerAreSound(run: seq<Event>, n: nat, desk: Desk, after: Desk)
    requires n < |run| && OpenSound(run, n, desk) && desk.tokens.Keys <= after.tokens.Keys
    requires forall r :: r in after.open ==> r in desk.open && after.open[r] == desk.open[r]
    ensures OpenSound(run, n + 1, after)
  {
  }

  lemma StepKeepsKeys(config: Config, desk: Desk, at: nat, e: Event)
    requires KeyedByJti(desk.tokens) && forall r :: r in desk.open ==> desk.open[r].stored.jti in desk.tokens
    ensures var after := Step(config, desk, at, e).0; KeyedByJti(after.tokens) && desk.tokens.Keys <= after.tokens.Keys
  {
  }

  lemma ReadIsSound(config: Config, run: seq<Event>, n: nat, desk: Desk)
    requires n < |run| && run[n].Read? && KeyedByJti(desk.tokens) && OpenSound(run, n, desk)
    ensures OpenSound(run, n + 1, Step(config, desk, n, run[n]).0)
  {
  }

  /** What one event does to a token. */
  lemma StepAndToken(config: Config, run: seq<Event>, n: nat, jti: Jti)
    requires n < |run| && jti in At(config, run, n + 1).tokens
    ensures At(config, run, n + 1).tokens[jti].revokedAt.Some? <==>
              SpendsAt(config, run, n, jti) || (jti in At(config, run, n).tokens && At(config, run, n).tokens[jti].revokedAt.Some?)
  {
    OpenIsSound(config, run, n);
  }

  lemma SpendsOnlyStored(config: Config, run: seq<Event>, n: nat, jti: Jti)
    requires n < |run| && SpendsAt(config, run, n, jti)
    ensures jti in At(config, run, n).tokens
  {
    OpenIsSound(config, run, n);
  }

  lemma {:induction false} TokensStay(config: Config, run: seq<Event>, m: nat, n: nat, jti: Jti)
    requires m <= n <= |run| && jti in At(config, run, m).tokens
    ensures jti in At(config, run, n).tokens
  {
    if m < n {
      TokensStay(config, run, m, n - 1, jti);
    }
  }

  /** A stored token is revoked exactly if a refresh of it has been committed. */
  lemma {:induction false} RevokedIffSpent(config: Config, run: seq<Event>, n: nat, jti: Jti)
    requires n <= |run| && jti in At(config, run, n).tokens
    ensures At(config, run, n).tokens[jti].revokedAt.Some? <==> SpentBefore(config, run, n, jti)
  {
    if n > 0 {
      StepAndToken(config, run, n - 1, jti);
      if jti in At(config, run, n - 1).tokens {
        RevokedIffSpent(config, run, n - 1, jti);
      } else {
        forall c | 0 <= c < n - 1 ensures !SpendsAt(config, run, c, jti) {
          if SpendsAt(config, run, c, jti) {
            SpendsOnlyStored(config, run, c, jti);
            TokensStay(config, run, c, n - 1, jti);
          }
        }
      }
    }
  }

  /** A refresh gets past its read if and only if its string presents a stored token that has not expired
      and of which no refresh has been committed by then; what is merely open does not count. */
  lemma AdmittedIff(config: Config, run: seq<Event>, r: nat)
    requires r < |run| && run[r].Read? && run[r].request.Refresh?
    ensures var presented := Presented(config, At(config, run, r).tokens, run[r].request.token);
            AnswerAt(config, run, r).Admitted? <==>
              && presented.Some?
              && run[r].request.now < presented.value.expiresAt
              && !SpentBefore(config, run, r, presented.value.jti)
  {
    var presented := Presented(config, At(config, run, r).tokens, run[r].request.token);
    OpenIsSound(config, run, r);
    if presented.Some? {
      RevokedIffSpent(config, run, r, presented.value.jti);
    }
  }

  lemma {:induction false} OpenUntilCommit(config: Config, run: seq<Event>, r: nat, n: nat)
    requires r < n <= |run| && run[r].Read? && (forall c :: r < c < n ==> run[c] != Commit(r))
    ensures r in At(config, run, n).open <==> AnswerAt(config, run, r).Admitted?
  {
    if n == r + 1 {
      OpenIsSound(config, run, r);
    } else {
      OpenUntilCommit(config, run, r, n - 1);
    }
  }

  /** Two refreshes of one token: given that the first to commit is granted, that the second is good but
      for the first (it presents the token, unexpired, with a new identifier), and that no third is
      committed before its read, the second is granted too if and only if it reads before the first
      commits. */
  lemma BothGrantedIff(config: Config, run: seq<Event>, ra: nat, ca: nat, rb: nat, cb: nat)
    requires ra < ca < cb < |run| && rb < cb && run[ca] == Commit(ra) && run[cb] == Commit(rb)
    requires run[ra].Read? && run[rb].Read? && run[rb].request.Refresh?
    requires Names(run[ra].request) == Names(run[rb].request) && AnswerAt(config, run, ca).Done?
    requires forall c :: rb < c < cb ==> run[c] != Commit(rb)
    requires var presented := Presented(config, At(config, run, rb).tokens, run[rb].request.token);
             && presented.Some? && run[rb].request.now < presented.value.expiresAt
             && (forall c :: 0 <= c < rb && SpendsAt(config, run, c, presented.value.jti) ==> c == ca)
    requires run[rb].request.minted.jti !in At(config, run, cb).tokens
    ensures AnswerAt(config, run, cb).Done? <==> rb < ca
  {
    var jti := Presented(config, At(config, run, rb).tokens, run[rb].request.token).value.jti;
    PresentedIsNamed(config, run, rb);
    GrantSpends(config, run, ra, ca, jti);
    AdmittedIff(config, run, rb);
    AdmittedIsGranted(config, run, rb, cb);
    assert SpentBefore(config, run, rb, jti) <==> ca < rb;
  }

  lemma PresentedIsNamed(config: Config, run: seq<Event>, r: nat)
    requires r < |run| && run[r].Read? && run[r].request.Refresh?
    requires Presented(config, At(config, run, r).tokens, run[r].request.token).Some?
    ensures Names(run[r].request) == Some(Presented(config, At(config, run, r).tokens, run[r].request.token).value.jti)
  {
    OpenIsSound(config, run, r);
  }

  lemma GrantSpends(config: Config, run: seq<Event>, r: nat, c: nat, jti: Jti)
    requires r < c < |run| && run[r].Read? && run[c] == Commit(r) && Names(run[r].request) == Some(jti)
    requires AnswerAt(config, run, c).Done?
    ensures SpendsAt(config, run, c, jti)
  {
    OpenIsSound(config, run, c);
  }

  /** An admitted refresh whose new identifier is not taken meanwhile is granted at its commit. */
  lemma AdmittedIsGranted(config: Config, run: seq<Event>, r: nat, c: nat)
    requires r < c < |run| && run[r].Read? && run[c] == Commit(r) && forall i :: r < i < c ==> run[i] != Commit(r)
    requires run[r].request.minted.jti !in At(config, run, c).tokens
    ensures AnswerAt(config, run, c).Done? <==> AnswerAt(config, run, r).Admitted?
  {
    OpenUntilCommit(config, run, r, c);
    OpenIsSound(config, run, c);
  }

  /** Then a login's tokens no longer form one chain: both successors are unrevoked. */
  lemma RaceForksAChain(config: Config, user: UserId, first: Parts, second: Parts, third: Parts,
                        now: Time) returns (run: seq<Event>)
    requires config.ttl > 0 && WellFormed(first)
    requires first.jti != second.jti && first.jti != third.jti && second.jti != third.jti
    ensures |run| == 5 && run[3] == Commit(1) && run[4] == Commit(2)
    ensures run[1].Read? && run[2].Read? && Names(run[1].request) == Names(run[2].request) == Some(first.jti)
    ensures AnswerAt(config, run, 3).Done? && AnswerAt(config, run, 4).Done?
    ensures var tokens := At(config, run, 5).tokens;
            && {second.jti, third.jti} <= tokens.Keys
            && tokens[second.jti].IsActive(now) && tokens[third.jti].IsActive(now)
            && tokens[second.jti].user == tokens[third.jti].user == user
  {
    run := [LogIn(Login(user, first, now)), Read(Refresh(TokenString(first), second, now)),
            Read(Refresh(TokenString(first), third, now)), Commit(1), Commit(2)];
    TokenStringsRoundTrip(TokenString(first), first);
    var token := Issue(first.jti, user, config.digest(first.secret), now, config.ttl);
    assert At(config, run, 1) == Desk(map[first.jti := token], map[]);
    assert At(config, run, 2) == Desk(map[first.jti := token], map[1 := Open(token, second, now)]);
    assert At(config, run, 3) == Desk(map[first.jti := token], map[1 := Open(token, second, now), 2 := Open(token, third, now)]);
  }
}
