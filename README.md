# OAuth callback workflow of the testing bot's web server

This project models the `/api/auth` handler of the bot-testing web server
(`main.js`). That handler is the callback of the OAuth2 authorization-code
grant. It reads `code` from the query string and answers 400 "No code provided"
when `code` is absent or empty. Otherwise it:

1. sends the Access Token Request of section 4.1.3 of RFC 6749;
2. fetches `users/@me` with the returned access token as a Bearer token;
3. splits `GUILD_IDS` on `,` and trims every piece;
4. adds the user to each of those guilds in list order, waiting 30 seconds
   before every attempt except the first and catching every failed attempt;
5. sends a thank-you page with one animated progress bar per guild entry.

An error thrown in steps 1 to 3 is caught and answered with 500 "Something
went wrong".

Every outbound call is an input. The exchange outcome is a token or a
failure. The profile outcome is a user id or a failure. The outcome of the
k-th join is `joinAt(k)`. What the handler does is a trace of events:
`Exchange(form)`, `FetchProfile(bearer)`, `Delay(ms)` and
`Join(guildId, userId, accessToken)`. The answer is a status with either a
plain-text body or the page's list of bars, each bar carrying its
`animation-delay`.

Modules:

- `GuildIds` (`guild_ids.dfy`) holds the pure `split(",")` / `trim()` parsing
  of `GUILD_IDS`. `Split` is proved against its inverse `JoinWith` in both
  directions. `Trim` is proved against an index characterisation
  (`IsTrimmingOf`).
- `ThanksPage` (`thanks_page.dfy`) holds the bars that
  `guilds.map((id, i) => …).join("")` renders.
- `AuthCallback` (`auth_callback.dfy`) holds the token request form, the join
  loop and the handler. `JoinGuilds` is the join loop, a method with a loop,
  proved against the specification function `JoinTrace`. `HandleAuth` is the
  handler: early return, then the steps in turn. It is proved against the
  specification function `Callback`. The lemmas state the handler's
  properties about `Callback`.
- `Wrappers` (`wrappers.dfy`) holds `Option`.

The behaviour follows the code as written, including these cases:

- An empty `GUILD_IDS` is one guild `""` (one join to an empty guild id and
  one bar), not an empty list (`GuildIds.ParseEmpty`).
- An unset `GUILD_IDS` makes `split` throw inside the `try`. The answer is
  then 500, but only after the exchange and the profile fetch have been made
  (`AuthCallback.UnsetGuildIdsFailsLate`).
- The code has no step that saves the user's profile to an external store,
  so the model has none either.
- The `state` value sent from the landing page is never checked on the
  callback.

## Model

| member | source | states |
|---|---|---|
| `GuildIds.Split` | main.js:39 | `split(",")` always returns at least one piece |
| `GuildIds.SplitCount` | main.js:39 | the number of pieces is the number of separators plus one |
| `GuildIds.SplitPiecesSeparatorFree` | main.js:39 | no piece contains the separator |
| `GuildIds.JoinSplit` | main.js:39 | joining the pieces with the separator gives back the original string |
| `GuildIds.SplitJoin` | main.js:39 | splitting a join of separator-free pieces gives back the pieces |
| `GuildIds.TrimStart` | main.js:39 | the result is a suffix of the input, only white space was dropped, and it does not start with white space |
| `GuildIds.TrimEnd` | main.js:39 | the result is a prefix of the input, only white space was dropped, and it does not end with white space |
| `GuildIds.TrimBounds` | main.js:39 | `trim` returns the slice whose outside is all white space and whose ends are not white space |
| `GuildIds.TrimUnique` | main.js:39 | that slice is unique, so any slice meeting the characterisation is what `trim` returns |
| `GuildIds.TrimIdempotent` | main.js:39 | trimming twice is trimming once |
| `GuildIds.TrimOfTrimmed` | main.js:39 | a string with no white space at either end is unchanged by `trim` |
| `GuildIds.ParseShape` | main.js:39 | the guild list has one entry per comma plus one; entry k is the trimmed k-th piece and is itself trimmed and comma-free |
| `GuildIds.ParseEmpty` | main.js:39 | an empty `GUILD_IDS` yields the one guild `""` |
| `GuildIds.ParseJoin` | main.js:39 | parsing a comma-join of trimmed, comma-free ids gives the ids back in order |
| `GuildIds.ParsePadded` | main.js:39 | white space around ids is ignored: parsing a comma-join of trimmed, comma-free ids, each padded before and after with any white space, gives the ids back in order |
| `ThanksPage.BarsFromShape` | main.js:122-127 | bars rendered from position `index` number the guilds, and bar i is delayed by `(index + i) * 17` seconds |
| `ThanksPage.BarsOnePerGuild` | main.js:122-127 | exactly one bar per guild entry; bar i (from 0) has `animation-delay` `i*17` s; consecutive bars are 17 s apart |
| `ThanksPage.BarsIgnoreIds` | main.js:122-127 | the bars depend only on how many guilds there are, not on their ids |
| `AuthCallback.TokenRequestFields` | main.js:15-21 | the token request carries `grant_type=authorization_code`, the received code, the configured client id and secret, and the fixed redirect URI, each name once |
| `AuthCallback.JoinGuilds` | main.js:40-65 | the join loop's events are exactly `JoinTrace(guilds, userId, token)`, whatever each join attempt answers |
| `AuthCallback.JoinTraceShape` | main.js:40-47 | for n guilds: 2n-1 events (none for n = 0); event 2k is the join of guild k, and event 2k-1 is `Delay(30000)` for k = 1..n-1, right before joins 2..n |
| `AuthCallback.JoinTraceReadBack` | main.js:40-65 | the joins made are exactly the guild list in order, and there is one wait fewer than joins (none when the list is empty) |
| `AuthCallback.JoinTraceCredentials` | main.js:50-53 | the join pass only waits and joins, every join for the same user with the same access token |
| `AuthCallback.HandleAuth` | main.js:9-137 | the handler's response and events are exactly `Callback(code, config, upstream)`, independent of the join outcomes |
| `AuthCallback.MissingCodeRejected` | main.js:10-11 | an absent or empty code gives 400 "No code provided" and no outbound call; the trace is empty and the status is 400 only in that case |
| `AuthCallback.ExchangeFirst` | main.js:14-27 | for a code, the first call is the token request carrying that code |
| `AuthCallback.UpstreamFailureAborts` | main.js:23-35 | a failed exchange or profile fetch gives 500 "Something went wrong" with no wait and no join; a failed exchange is the only call made; the 500 answer is the one the catch at main.js:133-135 sends |
| `AuthCallback.UnsetGuildIdsFailsLate` | main.js:39 | an unset `GUILD_IDS` gives 500 after exactly the exchange and the profile fetch: `split` on `undefined` throws, and the catch at main.js:133-135 answers 500 |
| `AuthCallback.CallbackOnSuccess` | main.js:39-131 | on the success path the answer is 200 with the bars of the parsed guild list, and the trace is exchange, profile fetch, then the join pass |
| `AuthCallback.SuccessfulCallback` | main.js:39-131 | on success the status is 200; the page has commas-plus-one bars; the joins are the parsed guild list in order, with one wait fewer than joins |
| `AuthCallback.StatusCases` | main.js:9-137 | the status is 200 exactly when code, exchange, profile and `GUILD_IDS` are all present; otherwise it is 400 or 500 |
| `AuthCallback.SameAccessTokenThroughout` | main.js:31-60 | the profile fetch uses the exchanged access token as Bearer, and every join carries that same token and the fetched user's id |
| `AuthCallback.BarsMatchJoins` | main.js:40-127 | on a 200 answer the page has one bar per join made |

## Left out

- Express routing, `app.listen`, dotenv and `process.env`. The client id, the client secret and `GUILD_IDS` are passed in as `Config`.
- The HTTP calls (axios), their URLs, headers and encodings. Each is reduced to its outcome. The join request's `Bot` authorization header, which carries the bot token, is not part of the `Join` event.
- The real `setTimeout` wait. It becomes the event `Delay(30000)`.
- All `console.log` / `console.error` output. For this reason a join's outcome is read but has no visible effect.
- The static HTML and CSS of the three pages. Only the bars and their `animation-delay` are kept; the bar label and the 30 s fill animation are not.
- The landing page `/` with its random `state`, and the `/invite` page. Neither takes part in the callback.
- `URLSearchParams` percent-encoding. The token request is modelled as its list of name/value pairs before encoding.
- Missing (`undefined`) values are not modelled: an unset `cid` or `csec`, or a token or profile response without `access_token` or `id`. Here every such value is a plain string.
- A `code` given as an array or an object (repeated or bracketed query parameters). `code` is modelled as absent or a string.
- JavaScript strings are UTF-16 code units; here a `char` is a Unicode scalar value. Every character `trim` removes lies in the Basic Multilingual Plane, so trimming agrees.
- Concurrency between requests. Each request is modelled on its own, since the handler shares no state between requests.
