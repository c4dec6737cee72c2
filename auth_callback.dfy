/**
 * The `/api/auth` OAuth callback: the client side of the authorization-code
 * grant (section 4.1.3 of RFC 6749, the Access Token Request), then the
 * profile fetch, then a paced pass adding the user to every configured guild.
 *
 * Every outbound call is reduced to an outcome supplied as input, and what
 * the handler does is recorded as a trace of events: the token exchange, the
 * profile fetch, each 30-second wait and each guild join, in the order they
 * happen. The handler's answer is a status and a body.
 */
module AuthCallback {

  import opened Wrappers
  import GuildIds
  import ThanksPage

  /** The fixed `redirect_uri` sent with the token request. */
  const RedirectUri: string := "https://bot-testing.onrender.com/api/auth"

  /** The wait before every join attempt but the first, in milliseconds. */
  const JoinPacingMs: nat := 30000

  // ------------------------------------------------------------ the inputs

  /** Process configuration: `cid`, `csec` and `GUILD_IDS`, the last possibly unset. */
  datatype Config = Config(clientId: string, clientSecret: string, guildIds: Option<string>)

  /** What the token endpoint answers: a token set, or an error (thrown by the HTTP client). */
  datatype ExchangeOutcome = TokenIssued(accessToken: string) | ExchangeFailed

  /** What the profile endpoint answers: the user, or an error. */
  datatype ProfileOutcome = ProfileReturned(userId: string) | ProfileFailed

  /** The answers of the identity provider to the two calls the workflow depends on. */
  datatype Upstream = Upstream(exchange: ExchangeOutcome, profile: ProfileOutcome)

  /** What one guild-join call answers; it is caught and logged, never acted upon. */
  datatype JoinOutcome = Joined(status: nat) | JoinFailed

  // ------------------------------------------------------------ the output

  /** One name/value pair of a form-encoded request body. */
  type Param = (string, string)

  /** An outbound call or a wait, as the handler performs it. */
  datatype Event =
    | Exchange(form: seq<Param>)
    | FetchProfile(bearer: string)
    | Delay(ms: nat)
    | Join(guildId: string, userId: string, accessToken: string)

  datatype Body = PlainText(text: string) | ThankYou(bars: seq<ThanksPage.Bar>)

  datatype Response = Response(status: nat, body: Body)

  /** What one request leads to: the response and the events before it. */
  datatype Handled = Handled(response: Response, trace: seq<Event>)

  const NoCode: Response := Response(400, PlainText("No code provided"))

  const ServerError: Response := Response(500, PlainText("Something went wrong"))

  /** JavaScript truthiness of the `code` query parameter: present and not `""`. */
  predicate IsTruthy(code: Option<string>)
  {
    code.Some? && code.value != ""
  }

  // ------------------------------------------------------ the token request

  /** The form of the access token request, in the order it is built. */
  function TokenRequest(config: Config, code: string): seq<Param>
  {
    [ ("client_id", config.clientId),
      ("client_secret", config.clientSecret),
      ("grant_type", "authorization_code"),
      ("code", code),
      ("redirect_uri", RedirectUri) ]
  }

  /** The value of the first parameter called `name`, as a form reader sees it. */
  function FormValue(form: seq<Param>, name: string): Option<string>
  {
    if form == [] then None
    else if form[0].0 == name then Some(form[0].1)
    else FormValue(form[1..], name)
  }

  /** Every parameter name occurs once. */
  predicate NamesDistinct(form: seq<Param>)
  {
    forall i, j :: 0 <= i < j < |form| ==> form[i].0 != form[j].0
  }

  /** A parameter whose name is not used before it is the one a form reader finds. */
  lemma {:induction false} FormValueAt(form: seq<Param>, k: nat)
    requires k < |form|
    requires forall j :: 0 <= j < k ==> form[j].0 != form[k].0
    ensures FormValue(form, form[k].0) == Some(form[k].1)
  {
    if k > 0 {
      FormValueAt(form[1..], k - 1);
    }
  }

  /**
   * The token request is an authorization-code grant for the received code,
   * with the configured client credentials and the fixed redirect URI, each
   * parameter given once.
   */
  lemma TokenRequestFields(config: Config, code: string)
    ensures NamesDistinct(TokenRequest(config, code))
    ensures FormValue(TokenRequest(config, code), "grant_type") == Some("authorization_code")
    ensures FormValue(TokenRequest(config, code), "code") == Some(code)
    ensures FormValue(TokenRequest(config, code), "redirect_uri") == Some(RedirectUri)
    ensures FormValue(TokenRequest(config, code), "client_id") == Some(config.clientId)
    ensures FormValue(TokenRequest(config, code), "client_secret") == Some(config.clientSecret)
  {
    var form := TokenRequest(config, code);
    FormValueAt(form, 0);
    FormValueAt(form, 1);
    FormValueAt(form, 2);
    FormValueAt(form, 3);
    FormValueAt(form, 4);
  }

  // ---------------------------------------------------------- the join pass

  /** Each guild after the first: a wait, then its join. */
  function PacedJoins(guilds: seq<string>, userId: string, accessToken: string): seq<Event>
  {
    if guilds == [] then []
    else [Delay(JoinPacingMs), Join(guilds[0], userId, accessToken)]
         + PacedJoins(guilds[1..], userId, accessToken)
  }

  /** The events of the join pass over `guilds`: the first join at once, the others paced. */
  function JoinTrace(guilds: seq<string>, userId: string, accessToken: string): seq<Event>
  {
    if guilds == [] then []
    else [Join(guilds[0], userId, accessToken)] + PacedJoins(guilds[1..], userId, accessToken)
  }

  lemma {:induction false} PacedJoinsAppend(guilds: seq<string>, g: string, userId: string, accessToken: string)
    ensures PacedJoins(guilds + [g], userId, accessToken)
         == PacedJoins(guilds, userId, accessToken) + [Delay(JoinPacingMs), Join(g, userId, accessToken)]
  {
    if guilds != [] {
      assert (guilds + [g])[1..] == guilds[1..] + [g];
      PacedJoinsAppend(guilds[1..], g, userId, accessToken);
    }
  }

  lemma JoinTraceAppend(guilds: seq<string>, g: string, userId: string, accessToken: string)
    ensures JoinTrace(guilds + [g], userId, accessToken)
         == JoinTrace(guilds, userId, accessToken)
            + (if guilds == [] then [] else [Delay(JoinPacingMs)])
            + [Join(g, userId, accessToken)]
  {
    if guilds != [] {
      assert (guilds + [g])[1..] == guilds[1..] + [g];
      PacedJoinsAppend(guilds[1..], g, userId, accessToken);
    }
  }

  /**
   * The join loop: guilds in list order, a wait before every attempt but the
   * first, each attempt's failure caught so the loop goes on. The events are
   * the same whatever the attempts answer.
   */
  method JoinGuilds(guilds: seq<string>, userId: string, accessToken: string, joinAt: nat -> JoinOutcome)
    returns (trace: seq<Event>)
    ensures trace == JoinTrace(guilds, userId, accessToken)
  {
    trace := [];
    var i := 0;
    while i < |guilds|
      invariant 0 <= i <= |guilds|
      invariant trace == JoinTrace(guilds[..i], userId, accessToken)
    {
      var guildId := guilds[i];
      if i > 0 {
        trace := trace + [Delay(JoinPacingMs)];
      }
      var outcome := joinAt(i);
      trace := trace + [Join(guildId, userId, accessToken)];
      JoinTraceAppend(guilds[..i], guildId, userId, accessToken);
      assert guilds[..i + 1] == guilds[..i] + [guildId];
      i := i + 1;
    }
    assert guilds[..i] == guilds;
  }

  lemma {:induction false} PacedJoinsShape(guilds: seq<string>, userId: string, accessToken: string)
    ensures |PacedJoins(guilds, userId, accessToken)| == 2 * |guilds|
    ensures forall k :: 0 <= k < |guilds| ==>
      && PacedJoins(guilds, userId, accessToken)[2 * k] == Delay(JoinPacingMs)
      && PacedJoins(guilds, userId, accessToken)[2 * k + 1] == Join(guilds[k], userId, accessToken)
  {
    if guilds != [] {
      PacedJoinsShape(guilds[1..], userId, accessToken);
      var t := PacedJoins(guilds, userId, accessToken);
      var rest := PacedJoins(guilds[1..], userId, accessToken);
      forall k | 1 <= k < |guilds|
        ensures t[2 * k] == Delay(JoinPacingMs) && t[2 * k + 1] == Join(guilds[k], userId, accessToken)
      {
        assert t[2 * k] == rest[2 * (k - 1)];
        assert t[2 * k + 1] == rest[2 * (k - 1) + 1];
      }
    }
  }

  /**
   * For n guilds the pass is join 1, then wait and join for each of guilds
   * 2..n: n joins in list order, each of the n - 1 waits immediately before
   * joins 2..n, and nothing else.
   */
  lemma JoinTraceShape(guilds: seq<string>, userId: string, accessToken: string)
    ensures |JoinTrace(guilds, userId, accessToken)| == if guilds == [] then 0 else 2 * |guilds| - 1
    ensures forall k :: 0 <= k < |guilds| ==>
      JoinTrace(guilds, userId, accessToken)[2 * k] == Join(guilds[k], userId, accessToken)
    ensures forall k :: 1 <= k < |guilds| ==>
      JoinTrace(guilds, userId, accessToken)[2 * k - 1] == Delay(JoinPacingMs)
  {
    if guilds != [] {
      var t := JoinTrace(guilds, userId, accessToken);
      var rest := PacedJoins(guilds[1..], userId, accessToken);
      PacedJoinsShape(guilds[1..], userId, accessToken);
      forall k | 1 <= k < |guilds|
        ensures t[2 * k] == Join(guilds[k], userId, accessToken) && t[2 * k - 1] == Delay(JoinPacingMs)
      {
        assert t[2 * k] == rest[2 * (k - 1) + 1];
        assert t[2 * k - 1] == rest[2 * (k - 1)];
      }
    }
  }

  // --------------------------------------------------- reading a trace back

  /** The guild ids of the join events, in trace order. */
  function JoinedGuilds(trace: seq<Event>): seq<string>
  {
    if trace == [] then []
    else (if trace[0].Join? then [trace[0].guildId] else []) + JoinedGuilds(trace[1..])
  }

  /** The waits in the trace, counted. */
  function DelayCount(trace: seq<Event>): nat
  {
    if trace == [] then 0
    else (if trace[0].Delay? then 1 else 0) + DelayCount(trace[1..])
  }

  lemma {:induction false} ReadBackAppend(a: seq<Event>, b: seq<Event>)
    ensures JoinedGuilds(a + b) == JoinedGuilds(a) + JoinedGuilds(b)
    ensures DelayCount(a + b) == DelayCount(a) + DelayCount(b)
  {
    if a == [] {
      assert a + b == b;
    } else {
      assert (a + b)[1..] == a[1..] + b;
      ReadBackAppend(a[1..], b);
    }
  }

  lemma {:induction false} PacedJoinsReadBack(guilds: seq<string>, userId: string, accessToken: string)
    ensures JoinedGuilds(PacedJoins(guilds, userId, accessToken)) == guilds
    ensures DelayCount(PacedJoins(guilds, userId, accessToken)) == |guilds|
  {
    if guilds != [] {
      var head: seq<Event> := [Delay(JoinPacingMs), Join(guilds[0], userId, accessToken)];
      PacedJoinsReadBack(guilds[1..], userId, accessToken);
      ReadBackAppend(head, PacedJoins(guilds[1..], userId, accessToken));
      assert head[1..][1..] == [];
      assert guilds == [guilds[0]] + guilds[1..];
    }
  }

  /**
   * Counted: the pass joins exactly the configured guilds, in their order,
   * and waits one time fewer than it joins (never, for no guilds).
   */
  lemma JoinTraceReadBack(guilds: seq<string>, userId: string, accessToken: string)
    ensures JoinedGuilds(JoinTrace(guilds, userId, accessToken)) == guilds
    ensures DelayCount(JoinTrace(guilds, userId, accessToken)) == if guilds == [] then 0 else |guilds| - 1
  {
    if guilds != [] {
      var first: seq<Event> := [Join(guilds[0], userId, accessToken)];
      PacedJoinsReadBack(guilds[1..], userId, accessToken);
      ReadBackAppend(first, PacedJoins(guilds[1..], userId, accessToken));
      assert guilds == [guilds[0]] + guilds[1..];
    }
  }

  // ---------------------------------------------------------- the handler

  /**
   * The callback as a whole. A falsy code is refused before anything else.
   * Inside the `try`: the exchange, the profile fetch, the parse of
   * `GUILD_IDS` (which throws when it is unset), the join pass and the page.
   * A failure of any of the first three is caught and answered with 500.
   */
  function Callback(code: Option<string>, config: Config, upstream: Upstream): Handled
  {
    if !IsTruthy(code) then Handled(NoCode, [])
    else
      var exchange := Exchange(TokenRequest(config, code.value));
      match upstream.exchange
      case ExchangeFailed => Handled(ServerError, [exchange])
      case TokenIssued(token) =>
        var calls := [exchange, FetchProfile(token)];
        match upstream.profile
        case ProfileFailed => Handled(ServerError, calls)
        case ProfileReturned(userId) =>
          match config.guildIds
          case None => Handled(ServerError, calls)
          case Some(raw) =>
            var guilds := GuildIds.Parse(raw);
            Handled(Response(200, ThankYou(ThanksPage.Bars(guilds))),
                    calls + JoinTrace(guilds, userId, token))
  }

  /**
   * The handler as written: early return on a missing code, then each step
   * in turn, any failure ending the request with 500. The join attempts'
   * outcomes are consulted but change neither the events nor the response.
   */
  method HandleAuth(code: Option<string>, config: Config, upstream: Upstream, joinAt: nat -> JoinOutcome)
    returns (response: Response, trace: seq<Event>)
    ensures Handled(response, trace) == Callback(code, config, upstream)
  {
    if !IsTruthy(code) {
      return NoCode, [];
    }
    trace := [Exchange(TokenRequest(config, code.value))];
    if upstream.exchange.ExchangeFailed? {
      return ServerError, trace;
    }
    var token := upstream.exchange.accessToken;
    trace := trace + [FetchProfile(token)];
    if upstream.profile.ProfileFailed? {
      return ServerError, trace;
    }
    var user := upstream.profile.userId;
    if config.guildIds.None? {
      return ServerError, trace;
    }
    var guilds := GuildIds.Parse(config.guildIds.value);
    var joins := JoinGuilds(guilds, user, token, joinAt);
    trace := trace + joins;
    response := Response(200, ThankYou(ThanksPage.Bars(guilds)));
  }

  // ------------------------------------------------ what the handler promises

  /** No code (absent or `""`): 400 "No code provided" and no outbound call; and only then. */
  lemma MissingCodeRejected(code: Option<string>, config: Config, upstream: Upstream)
    ensures !IsTruthy(code) ==> Callback(code, config, upstream) == Handled(NoCode, [])
    ensures IsTruthy(code) <==> Callback(code, config, upstream).trace != []
    ensures Callback(code, config, upstream).response.status == 400 <==> !IsTruthy(code)
  {
  }

  /** The first call made for a code is the token request carrying that code. */
  lemma ExchangeFirst(code: Option<string>, config: Config, upstream: Upstream)
    requires IsTruthy(code)
    ensures Callback(code, config, upstream).trace[0] == Exchange(TokenRequest(config, code.value))
  {
  }

  /**
   * A failed exchange or profile fetch answers 500 "Something went wrong"
   * and no guild is waited for or joined; a failed exchange makes no profile
   * fetch either.
   */
  lemma UpstreamFailureAborts(code: Option<string>, config: Config, upstream: Upstream)
    requires IsTruthy(code)
    requires upstream.exchange.ExchangeFailed? || upstream.profile.ProfileFailed?
    ensures Callback(code, config, upstream).response == ServerError
    ensures JoinedGuilds(Callback(code, config, upstream).trace) == []
    ensures DelayCount(Callback(code, config, upstream).trace) == 0
    ensures upstream.exchange.ExchangeFailed? ==>
      Callback(code, config, upstream).trace == [Exchange(TokenRequest(config, code.value))]
  {
    var exchange := Exchange(TokenRequest(config, code.value));
    var trace := Callback(code, config, upstream).trace;
    if upstream.exchange.ExchangeFailed? {
      assert trace[1..] == [];
    } else {
      var fetch := FetchProfile(upstream.exchange.accessToken);
      assert trace == [exchange] + [fetch];
      ReadBackAppend([exchange], [fetch]);
      assert [exchange][1..] == [] && [fetch][1..] == [];
    }
  }

  /**
   * An unset `GUILD_IDS` answers 500 only after the exchange and the
   * profile fetch have both been made, and joins nothing.
   */
  lemma UnsetGuildIdsFailsLate(code: Option<string>, config: Config, upstream: Upstream)
    requires IsTruthy(code) && upstream.exchange.TokenIssued? && upstream.profile.ProfileReturned?
    requires config.guildIds.None?
    ensures Callback(code, config, upstream).response == ServerError
    ensures Callback(code, config, upstream).trace
         == [Exchange(TokenRequest(config, code.value)), FetchProfile(upstream.exchange.accessToken)]
  {
  }

  /**
   * Once the code, exchange, profile and `GUILD_IDS` are all there, the
   * answer is 200 with the thank-you page, whose bars number the guild
   * entries (commas plus one); every entry is joined once, in order, with
   * one wait fewer than joins, whatever the joins answered.
   */
  lemma SuccessfulCallback(code: Option<string>, config: Config, upstream: Upstream)
    requires IsTruthy(code) && upstream.exchange.TokenIssued? && upstream.profile.ProfileReturned?
    requires config.guildIds.Some?
    ensures var h := Callback(code, config, upstream);
      && h.response.status == 200
      && h.response.body.ThankYou?
      && |h.response.body.bars| == GuildIds.Occurrences(config.guildIds.value, GuildIds.Comma) + 1
      && JoinedGuilds(h.trace) == GuildIds.Parse(config.guildIds.value)
      && DelayCount(h.trace) == |JoinedGuilds(h.trace)| - 1
  {
    var raw := config.guildIds.value;
    var guilds := GuildIds.Parse(raw);
    var token, user := upstream.exchange.accessToken, upstream.profile.userId;
    var calls := [Exchange(TokenRequest(config, code.value)), FetchProfile(token)];
    var joins := JoinTrace(guilds, user, token);
    CallbackOnSuccess(code, config, upstream);
    GuildIds.SplitCount(raw, GuildIds.Comma);
    ThanksPage.BarsFromShape(guilds, 0);
    JoinTraceReadBack(guilds, user, token);
    ReadBackAppend(calls, joins);
    assert calls[1..][1..] == [];
  }

  /** The success path, spelled out. */
  lemma CallbackOnSuccess(code: Option<string>, config: Config, upstream: Upstream)
    requires IsTruthy(code) && upstream.exchange.TokenIssued? && upstream.profile.ProfileReturned?
    requires config.guildIds.Some?
    ensures var guilds := GuildIds.Parse(config.guildIds.value);
      var token := upstream.exchange.accessToken;
      Callback(code, config, upstream)
      == Handled(Response(200, ThankYou(ThanksPage.Bars(guilds))),
                 [Exchange(TokenRequest(config, code.value)), FetchProfile(token)]
                 + JoinTrace(guilds, upstream.profile.userId, token))
  {
  }

  /** The status is 200 exactly when every step before the page succeeded; otherwise 400 or 500. */
  lemma StatusCases(code: Option<string>, config: Config, upstream: Upstream)
    ensures var status := Callback(code, config, upstream).response.status;
      && (status == 200 <==>
            IsTruthy(code) && upstream.exchange.TokenIssued? && upstream.profile.ProfileReturned?
            && config.guildIds.Some?)
      && status in {200, 400, 500}
  {
  }

  /**
   * The profile is fetched with the access token the exchange returned, and
   * every join carries that same token and the fetched user's id.
   */
  lemma SameAccessTokenThroughout(code: Option<string>, config: Config, upstream: Upstream)
    requires upstream.exchange.TokenIssued?
    ensures var trace := Callback(code, config, upstream).trace;
      forall i :: 0 <= i < |trace| ==>
        && (trace[i].FetchProfile? ==> trace[i].bearer == upstream.exchange.accessToken)
        && (trace[i].Join? ==>
              && trace[i].accessToken == upstream.exchange.accessToken
              && upstream.profile.ProfileReturned?
              && trace[i].userId == upstream.profile.userId)
  {
    var trace := Callback(code, config, upstream).trace;
    var token := upstream.exchange.accessToken;
    if !IsTruthy(code) {
      assert trace == [];
    } else if upstream.profile.ProfileFailed? || config.guildIds.None? {
      assert trace == [Exchange(TokenRequest(config, code.value)), FetchProfile(token)];
    } else {
      var guilds := GuildIds.Parse(config.guildIds.value);
      var user := upstream.profile.userId;
      var calls := [Exchange(TokenRequest(config, code.value)), FetchProfile(token)];
      var joins := JoinTrace(guilds, user, token);
      CallbackOnSuccess(code, config, upstream);
      JoinTraceCredentials(guilds, user, token);
      forall i | 0 <= i < |trace|
        ensures trace[i].FetchProfile? ==> trace[i].bearer == token
        ensures trace[i].Join? ==> trace[i].accessToken == token && trace[i].userId == user
      {
        if i >= 2 {
          assert trace[i] == joins[i - 2];
          assert trace[i] in joins;
        }
      }
    }
  }

  /** A wait, or a join for `userId` carrying `accessToken`. */
  predicate IsPacedJoinEvent(e: Event, userId: string, accessToken: string)
  {
    e.Delay? || (e.Join? && e.userId == userId && e.accessToken == accessToken)
  }

  lemma {:induction false} PacedJoinsCredentials(guilds: seq<string>, userId: string, accessToken: string)
    ensures forall e :: e in PacedJoins(guilds, userId, accessToken) ==> IsPacedJoinEvent(e, userId, accessToken)
  {
    if guilds != [] {
      PacedJoinsCredentials(guilds[1..], userId, accessToken);
    }
  }

  /** The join pass only waits and joins, each join for the same user with the same token. */
  lemma JoinTraceCredentials(guilds: seq<string>, userId: string, accessToken: string)
    ensures forall e :: e in JoinTrace(guilds, userId, accessToken) ==> IsPacedJoinEvent(e, userId, accessToken)
  {
    if guilds != [] {
      PacedJoinsCredentials(guilds[1..], userId, accessToken);
    }
  }

  /** On success the page has one bar per join made. */
  lemma BarsMatchJoins(code: Option<string>, config: Config, upstream: Upstream)
    requires Callback(code, config, upstream).response.status == 200
    ensures var h := Callback(code, config, upstream);
      h.response.body.ThankYou? && |h.response.body.bars| == |JoinedGuilds(h.trace)|
  {
    var raw := config.guildIds.value;
    SuccessfulCallback(code, config, upstream);
    GuildIds.ParseShape(raw);
  }
}
