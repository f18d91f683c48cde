/** Refresh tokens: the strings handed to clients, the stored token, and rotation over the token store. */
module RefreshTokens {
  import opened Values

  type Jti = string
  type Time = int

  // ---- token strings ----

  const SEPARATOR := '.'

  /** Where the first separator stands, or the length of the string when there is none. */
  function FirstSeparator(s: string): (i: nat)
    ensures i <= |s| && SEPARATOR !in s[..i] && (i < |s| ==> s[i] == SEPARATOR)
  {
    if s == "" || s[0] == SEPARATOR then 0
    else
      var i := 1 + FirstSeparator(s[1..]);
      assert s[..i] == [s[0]] + s[1..][..i - 1];
      i
  }

  datatype Parts = Parts(jti: Jti, secret: string)

  function TokenString(parts: Parts): string {
    parts.jti + [SEPARATOR] + parts.secret
  }

  /** Splits at the first separator; a token lacking either part is malformed. */
  function ParseRefresh(token: string): Option<Parts> {
    var i := FirstSeparator(token);
    if i == |token| || i == 0 || i + 1 == |token| then None else Some(Parts(token[..i], token[i + 1..]))
  }

  ghost predicate WellFormed(parts: Parts) {
    parts.jti != "" && SEPARATOR !in parts.jti && parts.secret != ""
  }

  lemma {:induction false} FirstSeparatorIs(s: string, n: nat)
    requires n < |s| && s[n] == SEPARATOR && forall i :: 0 <= i < n ==> s[i] != SEPARATOR
    ensures FirstSeparator(s) == n
  {
    if n > 0 {
      assert forall i :: 0 <= i < n - 1 ==> s[1..][i] == s[i + 1];
      FirstSeparatorIs(s[1..], n - 1);
    }
  }

  /** Parsing inverts joining on well-formed parts, whatever separators the secret contains, and
      nothing but a join of well-formed parts is accepted. */
  lemma TokenStringsRoundTrip(token: string, parts: Parts)
    ensures ParseRefresh(token) == Some(parts) <==> WellFormed(parts) && token == TokenString(parts)
  {
    if WellFormed(parts) && token == TokenString(parts) {
      assert token[..|parts.jti|] == parts.jti && token[|parts.jti| + 1..] == parts.secret;
      assert forall i :: 0 <= i < |parts.jti| ==> token[i] == parts.jti[i];
      FirstSeparatorIs(token, |parts.jti|);
    }
  }

  // ---- the store and the two use cases ----

  datatype Token = Token(jti: Jti, user: UserId, hash: string, expiresAt: Time, revokedAt: Option<Time>)
  {
    predicate IsActive(now: Time) {
      revokedAt.None? && now < expiresAt
    }

    function Revoked(now: Time): Token {
      if revokedAt.None? then this.(revokedAt := Some(now)) else this
    }
  }

  function Issue(jti: Jti, user: UserId, hash: string, issuedAt: Time, ttl: Time): Token {
    Token(jti, user, hash, issuedAt + ttl, None)
  }

  type Tokens = map<Jti, Token>

  /** The time to live, and the digest secrets are stored under. */
  datatype Config = Config(ttl: Time, digest: string -> string)

  /** `minted` is what the token service generates: the new identifier and its secret. */
  datatype Request =
    | Login(user: UserId, minted: Parts, now: Time)
    | Refresh(token: string, minted: Parts, now: Time)

  datatype Outcome = Granted(user: UserId, token: string) | InvalidRefreshToken | Conflict

  /** The stored token a refresh presents, when its secret matches. */
  function Presented(config: Config, tokens: Tokens, token: string): Option<Token> {
    var parts := ParseRefresh(token);
    if parts.None? || parts.value.jti !in tokens then None
    else
      var stored := tokens[parts.value.jti];
      if config.digest(parts.value.secret) != stored.hash then None else Some(stored)
  }

  /** One request, start to commit. A generated identifier that is already stored violates the primary
      key at the commit, which takes the whole request back. */
  function Serve(config: Config, tokens: Tokens, request: Request): (Tokens, Outcome) {
    var Parts(jti, secret) := request.minted;
    match request
    case Login(user, _, now) =>
      if jti in tokens then (tokens, Conflict)
      else
        (tokens[jti := Issue(jti, user, config.digest(secret), now, config.ttl)], Granted(user, TokenString(request.minted)))
    case Refresh(token, _, now) =>
      var presented := Presented(config, tokens, token);
      if presented.None? || !presented.value.IsActive(now) then (tokens, InvalidRefreshToken)
      else if jti in tokens then (tokens, Conflict)
      else
        var stored := presented.value;
        (tokens[stored.jti := stored.Revoked(now)][jti := Issue(jti, stored.user, config.digest(secret), now, config.ttl)],
         Granted(stored.user, TokenString(request.minted)))
  }

  /** The store after a run of requests, served one after another from an empty store. */
  function Run(config: Config, requests: seq<Request>): Tokens {
    if requests == [] then map[]
    else Serve(config, Run(config, requests[..|requests| - 1]), requests[|requests| - 1]).0
  }

  function Answer(config: Config, requests: seq<Request>, i: nat): Outcome
    requires i < |requests|
  {
    Serve(config, Run(config, requests[..i]), requests[i]).1
  }

  /** The identifier a refresh names. */
  function Names(request: Request): Option<Jti> {
    if request.Login? || ParseRefresh(request.token).None? then None else Some(ParseRefresh(request.token).value.jti)
  }

  // ---- chains: what each login has become ----

  type Chain = seq<Jti>

  /** Hangs `next` onto the chain whose tip is `used`. */
  function Extend(chains: seq<Chain>, used: Jti, next: Jti): seq<Chain> {
    seq(|chains|, c requires 0 <= c < |chains| =>
      if chains[c] != [] && chains[c][|chains[c]| - 1] == used then chains[c] + [next] else chains[c])
  }

  /** A granted login starts a chain; a granted refresh extends one. */
  function Chains(config: Config, requests: seq<Request>): seq<Chain> {
    if requests == [] then []
    else
      var earlier, last := requests[..|requests| - 1], requests[|requests| - 1];
      var chains := Chains(config, earlier);
      if !Answer(config, requests, |requests| - 1).Granted? then chains
      else if last.Login? || Names(last).None? then chains + [[last.minted.jti]]
      else Extend(chains, Names(last).value, last.minted.jti)
  }

  ghost predicate NoRepeats(chain: Chain) {
    forall i, j :: 0 <= i < j < |chain| ==> chain[i] != chain[j]
  }

  ghost predicate Apart(one: Chain, other: Chain) {
    forall jti :: jti in one ==> jti !in other
  }

  ghost predicate Held(chains: seq<Chain>, jti: Jti) {
    exists chain :: chain in chains && jti in chain
  }

  ghost predicate Stored(chain: Chain, tokens: Tokens) {
    forall jti :: jti in chain ==> jti in tokens
  }

  /** The chains hold every stored token in exactly one place. */
  ghost predicate HoldOnce(chains: seq<Chain>, tokens: Tokens) {
    && (forall c :: 0 <= c < |chains| ==> NoRepeats(chains[c]) && Stored(chains[c], tokens))
    && (forall c, d :: 0 <= c < d < |chains| ==> Apart(chains[c], chains[d]))
    && (forall jti :: jti in tokens ==> Held(chains, jti))
  }

  /** One user's tokens in a row: all but the tip are used up, and each was handed out when its
      predecessor, then still active, was revoked. */
  ghost predicate Linked(config: Config, chain: Chain, tokens: Tokens) {
    && chain != []
    && Stored(chain, tokens)
    && (forall i :: 0 <= i < |chain| ==> tokens[chain[i]].user == tokens[chain[0]].user)
    && (forall i :: 0 <= i < |chain| ==> (tokens[chain[i]].revokedAt.None? <==> i == |chain| - 1))
    && (forall i :: 0 <= i < |chain| - 1 ==> Handover(config, tokens[chain[i]], tokens[chain[i + 1]]))
  }

  ghost predicate Handover(config: Config, from: Token, to: Token) {
    from.revokedAt.Some? && from.revokedAt.value < from.expiresAt && to.expiresAt == from.revokedAt.value + config.ttl
  }

  ghost predicate AllLinked(config: Config, chains: seq<Chain>, tokens: Tokens) {
    forall c :: 0 <= c < |chains| ==> Linked(config, chains[c], tokens)
  }

  ghost predicate KeyedByJti(tokens: Tokens) {
    forall jti :: jti in tokens ==> tokens[jti].jti == jti
  }

  ghost predicate Rotation(config: Config, chains: seq<Chain>, tokens: Tokens) {
    HoldOnce(chains, tokens) && AllLinked(config, chains, tokens)
  }

  lemma {:induction false} RunIsKeyed(config: Config, requests: seq<Request>)
    ensures KeyedByJti(Run(config, requests))
  {
    if requests != [] {
      RunIsKeyed(config, requests[..|requests| - 1]);
    }
  }

  lemma NewChainHoldsOnce(chains: seq<Chain>, tokens: Tokens, next: Jti, after: Tokens)
    requires HoldOnce(chains, tokens) && next !in tokens && after.Keys == tokens.Keys + {next}
    ensures HoldOnce(chains + [[next]], after)
  {
    var chains' := chains + [[next]];
    forall jti | jti in after ensures Held(chains', jti) {
      if jti == next {
        assert [next] in chains';
      } else {
        var chain :| chain in chains && jti in chain;
        assert chain in chains';
      }
    }
  }

  lemma LongerChainHoldsOnce(chains: seq<Chain>, tokens: Tokens, c: nat, next: Jti, after: Tokens)
    requires HoldOnce(chains, tokens) && c < |chains| && next !in tokens && after.Keys == tokens.Keys + {next}
    ensures HoldOnce(chains[c := chains[c] + [next]], after)
  {
    var chains' := chains[c := chains[c] + [next]];
    forall jti | jti in after ensures Held(chains', jti) {
      if jti == next {
        assert next in chains'[c];
      } else {
        var d :| 0 <= d < |chains| && jti in chains[d];
        assert jti in chains'[d];
      }
    }
  }

  lemma UntouchedChainStaysLinked(config: Config, chain: Chain, tokens: Tokens, after: Tokens)
    requires Linked(config, chain, tokens)
    requires forall jti :: jti in chain ==> jti in after && after[jti] == tokens[jti]
    ensures Linked(config, chain, after)
  {
  }

  /** `used`, active, is revoked and `next` issued to its user in one step. */
  ghost predicate Rotates(config: Config, tokens: Tokens, used: Jti, next: Jti, now: Time, after: Tokens) {
    && used in tokens
    && tokens[used].IsActive(now)
    && next !in tokens
    && next in after
    && after[next] == Issue(next, tokens[used].user, after[next].hash, now, config.ttl)
    && after == tokens[used := tokens[used].Revoked(now)][next := after[next]]
  }

  lemma LongerChainIsLinked(config: Config, chain: Chain, tokens: Tokens, next: Jti, now: Time, after: Tokens)
    requires Linked(config, chain, tokens) && NoRepeats(chain)
    requires Rotates(config, tokens, chain[|chain| - 1], next, now, after)
    ensures Linked(config, chain + [next], after)
  {
    var n := |chain| - 1;
    forall i | 0 <= i < n ensures chain[i] in after && after[chain[i]] == tokens[chain[i]] {
      assert chain[i] in chain && chain[i] != chain[n];
    }
    assert after[chain[n]] == tokens[chain[n]].Revoked(now) by { assert chain[n] in chain; }
    var chain' := chain + [next];
    forall i | 0 <= i <= n ensures Handover(config, after[chain'[i]], after[chain'[i + 1]]) {
      if i < n {
        assert Handover(config, tokens[chain[i]], tokens[chain[i + 1]]);
      }
    }
  }

  lemma LoginStartsAChain(config: Config, chains: seq<Chain>, tokens: Tokens, request: Request)
    requires Rotation(config, chains, tokens) && request.Login? && Serve(config, tokens, request).1.Granted?
    ensures Rotation(config, chains + [[request.minted.jti]], Serve(config, tokens, request).0)
  {
    var jti := request.minted.jti;
    var after, chains' := Serve(config, tokens, request).0, chains + [[jti]];
    NewChainHoldsOnce(chains, tokens, jti, after);
    forall c | 0 <= c < |chains'| ensures Linked(config, chains'[c], after) {
      if c < |chains| {
        UntouchedChainStaysLinked(config, chains[c], tokens, after);
      }
    }
  }

  /** An unrevoked token is the tip of the one chain that holds it. */
  lemma UnrevokedIsATip(config: Config, chains: seq<Chain>, tokens: Tokens, jti: Jti) returns (c: nat)
    requires Rotation(config, chains, tokens) && jti in tokens && tokens[jti].revokedAt.None?
    ensures c < |chains| && NoRepeats(chains[c]) && chains[c] != [] && chains[c][|chains[c]| - 1] == jti
    ensures forall d :: 0 <= d < |chains| && jti in chains[d] ==> d == c
  {
    var chain :| chain in chains && jti in chain;
    c :| 0 <= c < |chains| && chains[c] == chain;
    var i :| 0 <= i < |chain| && chain[i] == jti;
    assert Linked(config, chains[c], tokens);
    forall d | 0 <= d < |chains| && d != c ensures jti !in chains[d] {
      assert if d < c then Apart(chains[d], chains[c]) else Apart(chains[c], chains[d]);
    }
  }

  lemma ExtendsOne(chains: seq<Chain>, c: nat, used: Jti, next: Jti)
    requires c < |chains| && chains[c] != [] && chains[c][|chains[c]| - 1] == used
    requires forall d :: 0 <= d < |chains| && used in chains[d] ==> d == c
    ensures Extend(chains, used, next) == chains[c := chains[c] + [next]]
  {
  }

  lemma RotatedStaysLinked(config: Config, chains: seq<Chain>, tokens: Tokens, c: nat, next: Jti, now: Time, after: Tokens)
    requires AllLinked(config, chains, tokens) && c < |chains| && chains[c] != [] && NoRepeats(chains[c])
    requires Rotates(config, tokens, chains[c][|chains[c]| - 1], next, now, after)
    requires forall d :: 0 <= d < |chains| && chains[c][|chains[c]| - 1] in chains[d] ==> d == c
    ensures AllLinked(config, chains[c := chains[c] + [next]], after)
  {
    LongerChainIsLinked(config, chains[c], tokens, next, now, after);
    forall d | 0 <= d < |chains| && d != c ensures Linked(config, chains[d], after) {
      assert Linked(config, chains[d], tokens);
      UntouchedChainStaysLinked(config, chains[d], tokens, after);
    }
  }

  /** What a granted refresh does to the store. */
  lemma GrantedRefreshRotates(config: Config, tokens: Tokens, request: Request)
    requires KeyedByJti(tokens) && request.Refresh? && Serve(config, tokens, request).1.Granted?
    ensures Names(request).Some?
    ensures Rotates(config, tokens, Names(request).value, request.minted.jti, request.now, Serve(config, tokens, request).0)
  {
  }

  lemma RotationExtendsAChain(config: Config, chains: seq<Chain>, tokens: Tokens, used: Jti, next: Jti, now: Time, after: Tokens)
    requires Rotation(config, chains, tokens) && Rotates(config, tokens, used, next, now, after)
    ensures Rotation(config, Extend(chains, used, next), after)
  {
    var c := UnrevokedIsATip(config, chains, tokens, used);
    ExtendsOne(chains, c, used, next);
    LongerChainHoldsOnce(chains, tokens, c, next, after);
    RotatedStaysLinked(config, chains, tokens, c, next, now, after);
  }

  /** Over every run of logins and refreshes the stored tokens fall into chains, one for each granted
      login: a chain has one user, exactly one unrevoked token, which is its tip, and every earlier one
      was revoked, while active, at the moment its successor was issued. */
  lemma {:induction false} RotationChains(config: Config, requests: seq<Request>)
    ensures Rotation(config, Chains(config, requests), Run(config, requests))
  {
    if requests != [] {
      var earlier, last := requests[..|requests| - 1], requests[|requests| - 1];
      RotationChains(config, earlier);
      RunIsKeyed(config, earlier);
      var chains, tokens := Chains(config, earlier), Run(config, earlier);
      if Serve(config, tokens, last).1.Granted? {
        if last.Login? {
          LoginStartsAChain(config, chains, tokens, last);
        } else {
          GrantedRefreshRotates(config, tokens, last);
          RotationExtendsAChain(config, chains, tokens, Names(last).value, last.minted.jti, last.now, Run(config, requests));
        }
      }
    }
  }

  function Count(config: Config, requests: seq<Request>, login: bool): nat {
    if requests == [] then 0
    else
      Count(config, requests[..|requests| - 1], login) +
      if Answer(config, requests, |requests| - 1).Granted? && requests[|requests| - 1].Login? == login then 1 else 0
  }

  /** One chain for each granted login, one token for each granted request. */
  lemma {:induction false} TokensAreCounted(config: Config, requests: seq<Request>)
    ensures |Chains(config, requests)| == Count(config, requests, true)
    ensures |Run(config, requests)| == Count(config, requests, true) + Count(config, requests, false)
  {
    if requests != [] {
      var earlier, last := requests[..|requests| - 1], requests[|requests| - 1];
      TokensAreCounted(config, earlier);
      RunIsKeyed(config, earlier);
      var tokens := Run(config, earlier);
      if Serve(config, tokens, last).1.Granted? {
        var after := Serve(config, tokens, last).0;
        assert after.Keys == tokens.Keys + {last.minted.jti};
        assert |after.Keys| == |tokens.Keys| + 1;
      }
    }
  }

  // ---- acceptance ----

  /** Exactly when a refresh is granted: its string joins the identifier of a chain's tip, not expired,
      with a secret of the stored digest, and the generated identifier is new. Otherwise nothing is
      stored. */
  lemma GrantedIff(config: Config, requests: seq<Request>, refresh: Request)
    requires refresh.Refresh?
    ensures var tokens, chains := Run(config, requests), Chains(config, requests);
            var (after, outcome) := Serve(config, tokens, refresh);
            && (outcome.Granted? <==>
                  && refresh.minted.jti !in tokens
                  && SomeTipAccepts(config, chains, tokens, refresh.token, refresh.now))
            && (!outcome.Granted? ==> after == tokens)
  {
    var tokens, chains := Run(config, requests), Chains(config, requests);
    RotationChains(config, requests);
    if Serve(config, tokens, refresh).1.Granted? {
      GrantedByATip(config, chains, tokens, refresh);
    }
    if refresh.minted.jti !in tokens && SomeTipAccepts(config, chains, tokens, refresh.token, refresh.now) {
      var c, secret :| 0 <= c < |chains| && TipAccepts(config, chains[c], tokens, refresh.token, secret, refresh.now);
      TipIsGranted(config, chains[c], tokens, refresh, secret);
    }
  }

  /** A login is granted exactly with a new identifier; its token is then the user's, and nothing else in the
      store changes. A refusal of either request says whether the identifier was taken. */
  lemma LoginGrantedIff(config: Config, tokens: Tokens, request: Request)
    ensures var (after, outcome) := Serve(config, tokens, request);
            && (request.Login? ==> (outcome.Granted? <==> request.minted.jti !in tokens))
            && (outcome == Conflict ==> request.minted.jti in tokens)
            && (outcome == InvalidRefreshToken ==> request.Refresh?)
            && (request.Login? && outcome.Granted? ==>
                  && outcome == Granted(request.user, TokenString(request.minted))
                  && after == tokens[request.minted.jti := Token(request.minted.jti, request.user,
                                config.digest(request.minted.secret), request.now + config.ttl, None)])
  {
  }

  ghost predicate SomeTipAccepts(config: Config, chains: seq<Chain>, tokens: Tokens, token: string, now: Time) {
    exists c, secret :: 0 <= c < |chains| && TipAccepts(config, chains[c], tokens, token, secret, now)
  }

  lemma GrantedByATip(config: Config, chains: seq<Chain>, tokens: Tokens, refresh: Request)
    requires Rotation(config, chains, tokens) && refresh.Refresh? && Serve(config, tokens, refresh).1.Granted?
    ensures refresh.minted.jti !in tokens && SomeTipAccepts(config, chains, tokens, refresh.token, refresh.now)
  {
    var parts := ParseRefresh(refresh.token).value;
    var c := UnrevokedIsATip(config, chains, tokens, parts.jti);
    TokenStringsRoundTrip(refresh.token, parts);
    assert TipAccepts(config, chains[c], tokens, refresh.token, parts.secret, refresh.now);
  }

  lemma TipIsGranted(config: Config, chain: Chain, tokens: Tokens, refresh: Request, secret: string)
    requires refresh.Refresh? && refresh.minted.jti !in tokens && Linked(config, chain, tokens)
    requires TipAccepts(config, chain, tokens, refresh.token, secret, refresh.now)
    ensures Serve(config, tokens, refresh).1.Granted?
  {
    TokenStringsRoundTrip(refresh.token, Parts(chain[|chain| - 1], secret));
  }

  ghost predicate TipAccepts(config: Config, chain: Chain, tokens: Tokens, token: string, secret: string, now: Time) {
    && chain != []
    && var tip := chain[|chain| - 1];
      && tip in tokens
      && WellFormed(Parts(tip, secret))
      && token == TokenString(Parts(tip, secret))
      && config.digest(secret) == tokens[tip].hash
      && now < tokens[tip].expiresAt
  }

  ghost predicate SpentIn(tokens: Tokens, jti: Jti) {
    jti in tokens && tokens[jti].revokedAt.Some?
  }

  /** A used token stays used, with the time of its first revocation. */
  lemma {:induction false} SpentForever(config: Config, requests: seq<Request>, i: nat, jti: Jti)
    requires i <= |requests| && SpentIn(Run(config, requests[..i]), jti)
    ensures SpentIn(Run(config, requests), jti)
    ensures Run(config, requests)[jti] == Run(config, requests[..i])[jti]
    decreases |requests|
  {
    if i == |requests| {
      assert requests[..i] == requests;
    } else {
      var earlier := requests[..|requests| - 1];
      assert earlier[..i] == requests[..i];
      SpentForever(config, earlier, i, jti);
      RunIsKeyed(config, earlier);
    }
  }

  /** Replay is rejected: of all the refreshes in a run that name one token, at most one is granted. */
  lemma AcceptedAtMostOnce(config: Config, requests: seq<Request>, i: nat, j: nat)
    requires i < j < |requests| && requests[i].Refresh? && requests[j].Refresh?
    requires Answer(config, requests, i).Granted? && Answer(config, requests, j).Granted?
    ensures Names(requests[i]) != Names(requests[j])
  {
    var before, after := requests[..i], requests[..i + 1];
    assert after[..i] == before;
    assert after[|after| - 1] == requests[i];
    RunIsKeyed(config, before);
    var jti := Names(requests[i]).value;
    assert SpentIn(Run(config, after), jti);
    assert requests[..j][..i + 1] == after;
    SpentForever(config, requests[..j], i + 1, jti);
  }

  // ---- the token handed out works until it is used ----

  ghost predicate UsesUp(config: Config, tokens: Tokens, request: Request, jti: Jti) {
    Serve(config, tokens, request).1.Granted? && Names(request) == Some(jti)
  }

  /** From request `since` on, none was granted on this token. */
  ghost predicate Unused(config: Config, requests: seq<Request>, since: nat, jti: Jti)
    decreases |requests|
  {
    |requests| <= since ||
    var earlier, last := requests[..|requests| - 1], requests[|requests| - 1];
    Unused(config, earlier, since, jti) && !UsesUp(config, Run(config, earlier), last, jti)
  }

  ghost predicate Keeps(before: Tokens, after: Tokens, jti: Jti) {
    jti in before && jti in after && after[jti] == before[jti]
  }

  lemma {:induction false} UnusedStays(config: Config, requests: seq<Request>, since: nat, jti: Jti)
    requires since <= |requests| && jti in Run(config, requests[..since])
    requires Unused(config, requests, since, jti)
    ensures Keeps(Run(config, requests[..since]), Run(config, requests), jti)
    decreases |requests|
  {
    if since == |requests| {
      assert requests[..since] == requests;
    } else {
      var earlier, last := requests[..|requests| - 1], requests[|requests| - 1];
      assert earlier[..since] == requests[..since];
      UnusedStays(config, earlier, since, jti);
      RunIsKeyed(config, earlier);
      OnlyItsRefreshChangesAToken(config, Run(config, earlier), last, jti);
    }
  }

  lemma OnlyItsRefreshChangesAToken(config: Config, tokens: Tokens, request: Request, jti: Jti)
    requires KeyedByJti(tokens) && jti in tokens
    requires !UsesUp(config, tokens, request, jti)
    ensures Keeps(tokens, Serve(config, tokens, request).0, jti)
  {
  }

  /** The string a granted request hands out is good for one refresh: whatever is requested meanwhile
      by whomever, while none of it was granted on this token, presenting the string is granted to the
      same user exactly when the time to live has not run out. */
  lemma HandedOutTokenWorks(config: Config, requests: seq<Request>, i: nat, refresh: Request)
    requires i < |requests| && Answer(config, requests, i).Granted? && WellFormed(requests[i].minted)
    requires Unused(config, requests, i + 1, requests[i].minted.jti)
    requires refresh.Refresh? && refresh.token == Answer(config, requests, i).token
    requires refresh.minted.jti !in Run(config, requests)
    ensures var outcome := Serve(config, Run(config, requests), refresh).1;
            && (outcome.Granted? <==> refresh.now < requests[i].now + config.ttl)
            && (outcome.Granted? ==> outcome.user == Answer(config, requests, i).user)
  {
    var after := requests[..i + 1];
    assert after[..i] == requests[..i];
    assert after[|after| - 1] == requests[i];
    RunIsKeyed(config, requests[..i]);
    GrantStores(config, Run(config, requests[..i]), requests[i]);
    UnusedStays(config, requests, i + 1, requests[i].minted.jti);
    StoredIsGranted(config, Run(config, requests), requests[i], Answer(config, requests, i).user, refresh);
  }

  /** The token that a granted request leaves in the store. */
  function Handed(config: Config, request: Request, user: UserId): Token {
    Issue(request.minted.jti, user, config.digest(request.minted.secret), request.now, config.ttl)
  }

  lemma GrantStores(config: Config, tokens: Tokens, request: Request)
    requires KeyedByJti(tokens) && Serve(config, tokens, request).1.Granted?
    ensures var (after, outcome) := Serve(config, tokens, request);
            && outcome.token == TokenString(request.minted)
            && request.minted.jti in after && after[request.minted.jti] == Handed(config, request, outcome.user)
  {
  }

  lemma StoredIsGranted(config: Config, tokens: Tokens, request: Request, user: UserId, refresh: Request)
    requires WellFormed(request.minted) && request.minted.jti in tokens
    requires tokens[request.minted.jti] == Handed(config, request, user)
    requires refresh.Refresh? && refresh.token == TokenString(request.minted) && refresh.minted.jti !in tokens
    ensures var outcome := Serve(config, tokens, refresh).1;
            && (outcome.Granted? <==> refresh.now < request.now + config.ttl)
            && (outcome.Granted? ==> outcome.user == user)
  {
    TokenStringsRoundTrip(refresh.token, request.minted);
  }

  // ---- the objects ----

  class RefreshToken {
    const jti: Jti
    const user: UserId
    const hash: string
    const expiresAt: Time
    var revokedAt: Option<Time>

    function View(): Token
      reads this
    {
      Token(jti, user, hash, expiresAt, revokedAt)
    }

    constructor Load(token: Token)
      ensures View() == token
    {
      jti := token.jti;
      user := token.user;
      hash := token.hash;
      expiresAt := token.expiresAt;
      revokedAt := token.revokedAt;
    }

    /** Idempotent: revoking again keeps the first timestamp. */
    method Revoke(now: Time)
      modifies this
      ensures View() == old(View()).Revoked(now)
    {
      if revokedAt.None? {
        revokedAt := Some(now);
      }
    }

    /** An inactive token has no successor and stays as it is. */
    method Rotate(now: Time, newJti: Jti, newHash: string, ttl: Time) returns (successor: Option<Token>)
      modifies this
      ensures successor.Some? <==> old(View()).IsActive(now)
      ensures successor.Some? ==> successor.value == Issue(newJti, user, newHash, now, ttl)
      ensures View() == if successor.Some? then old(View()).Revoked(now) else old(View())
    {
      if !View().IsActive(now) {
        return None;
      }
      Revoke(now);
      successor := Some(Issue(newJti, user, newHash, now, ttl));
    }
  }

  class TokenService {
    const config: Config
    var tokens: Tokens

    constructor (config: Config)
      ensures this.config == config && tokens == map[]
    {
      this.config := config;
      tokens := map[];
    }

    /** The end of a login whose credentials were verified. */
    method AuthenticateUser(user: UserId, minted: Parts, now: Time) returns (outcome: Outcome)
      modifies this
      ensures (tokens, outcome) == Serve(config, old(tokens), Login(user, minted, now))
      ensures KeyedByJti(old(tokens)) ==> KeyedByJti(tokens)
    {
      if minted.jti in tokens {
        return Conflict;
      }
      tokens := tokens[minted.jti := Issue(minted.jti, user, config.digest(minted.secret), now, config.ttl)];
      outcome := Granted(user, TokenString(minted));
    }

    method RefreshAccessToken(token: string, minted: Parts, now: Time) returns (outcome: Outcome)
      requires KeyedByJti(tokens)
      modifies this
      ensures (tokens, outcome) == Serve(config, old(tokens), Refresh(token, minted, now))
      ensures KeyedByJti(tokens)
    {
      var parts := ParseRefresh(token);
      if parts.None? || parts.value.jti !in tokens {
        return InvalidRefreshToken;
      }
      var stored := new RefreshToken.Load(tokens[parts.value.jti]);
      if config.digest(parts.value.secret) != stored.hash {
        return InvalidRefreshToken;
      }
      var rotated := stored.Rotate(now, minted.jti, config.digest(minted.secret), config.ttl);
      if rotated.None? {
        return InvalidRefreshToken;
      }
      var before := tokens;
      tokens := tokens[stored.jti := stored.View()];
      if minted.jti in tokens {
        tokens := before;
        return Conflict;
      }
      tokens := tokens[minted.jti := rotated.value];
      outcome := Granted(stored.user, TokenString(minted));
    }
  }
}
