# IUT RCC grades tracker — a Dafny model

This project models the core of the IUT RCC grades tracker. The tracker is a
bot that does four things:

- It logs in to the university intranet through the CAS single sign-on
  service.
- It polls the student's grades page.
- It diffs the grades against a save file of hashed grades.
- It posts the new grades to a Discord webhook as an embed.

The model follows the program's layers, one Dafny module per source file:

| module | file | models |
|---|---|---|
| `Http` | `http_client.dfy` | the small HTTP client: stored headers, merging of per-call options, the URL, body and Content-Type the static `request` hands on, and the response record it builds |
| `Cas` | `cas.dfy` | `CAS.login`: the login page GET, the fold of the hidden inputs into form data, the credentials POST and the ticket in its redirect |
| `Intranet` | `intranet_client.dfy` | the portal client: its `Cookie` header, the two-step ticket/cookie login, and the session guard and status handling of every page getter |
| `TrackerConstants` | `tracker_constants.dfy` | `TIMEOUT`, `MAX_RETRY` and `LOGIN_RETRY_DELAY`, computed as `parseInt(setting) \|\| default` |
| `Tracker` | `tracker_client.dfy` | `hashGrades`, `loginWithRetries`, `fetchAndUpdateGrades` (diff, fields, save file), the embeds and the poll loop of `run` |

Four modules support them:

- `Wrappers` holds `Option` and `Result`.
- `Text` holds string helpers and the decimal rendering of integers.
- `FormUrlEncoded` is `URLSearchParams` serialisation and parsing, with
  percent-encoding of the UTF-8 bytes, and their round trip.
- `Errors` holds the error classes, `name: message` rendering included.

How the pieces are modelled:

- **Outside answers are inputs.**
  - A response is an `Http.RawResponse`: a status code, headers and the
    body already extracted from the HTML. The body is the hidden inputs of
    the CAS page, the profile slug or the grade rows.
  - The tracker's surroundings are a `Tracker.World`. Its functions from
    a counter give the answers of the n-th login, the n-th grades page and
    the n-th webhook send.
- **Effects are a trace.** The `TrackerClient` object keeps the save file
  as a field. Every file operation, webhook send, delay and process exit is
  appended to that trace of `Tracker.Action`s.
- **Each imperative method is proved equal to a value-level function.**
  For example, `TrackerClient.LoginWithRetries` equals `Tracker.Retry`,
  and `TrackerClient.Poll` equals `Tracker.Loop`. The lemmas about those
  functions carry the properties. The functions read the world through a
  `Tracker.Env`, which gives the outcome of each login rather than the
  replies it is computed from. The methods
  take, as a ghost argument, an `Env` that `Tracker.Observes` their world,
  and `Tracker.Observed` builds one for every world.
- **The settings are parameters.** `Tracker.Config` holds them as plain
  parameters: `SERVICE_URL`, `SERVICE_CAS_PATH`, `CAS_URL`, `USER_AGENT`,
  the credentials, and `timeout`, `maxRetry` and `loginRetryDelay`. Those
  three stand for the values `TrackerConstants.Timeout`, `MaxRetry` and
  `LoginRetryDelay` compute from the environment, but `Config` does not
  tie them to those functions: every `Tracker` lemma holds for any value
  of them, including the zero and negative values the functions never or
  sometimes yield.

## Model

| member | source | states |
|---|---|---|
| Http.StatusText | src/http/client.ts:108 | the reason phrase is "Unknown Status" exactly for the codes Node has no phrase for |
| Http.ProcessBody | src/http/client.ts:120-136 | URLSearchParams become their serialisation with the form Content-Type, and that text parses back to the same parameters. A plain object becomes its JSON with "application/json". Anything else gives no body and an empty Content-Type. There is no body exactly when the Content-Type is empty |
| Http.RequestUrl | src/http/client.ts:85-88 | without a query the URL is unchanged; with one it is `url?serialised`, and on a URL without `?` or `#` the query part parses back to the given parameters |
| Http.MergeHeaders | src/http/client.ts:39-42 | the spread keeps every key of both, and the later object wins where both have one |
| Http.Prepare | src/http/client.ts:82-97 | the wire request has the caller's verb, the built URL and the processed body. Content-Type is always the one `processBody` chose, and every other header is what the caller passed |
| Http.ContentTypeAlwaysSent | src/http/client.ts:93-96 | a caller's own Content-Type is always replaced; a request without a body sends an empty one |
| Http.DefaultValidateStatus | src/http/client.ts:138-140 | the default status check: 2xx; Http.Receive states where it applies |
| Http.HttpErrorMessage | src/http/errors.ts:10 | the HttpError message `<status> <statusText>`; Cas.LoginPageRejected states its use |
| Http.Receive | src/http/client.ts:101-109 | `ok` follows the caller's status check when given, else 2xx. The status, body and headers are the server's, `statusText` is the status's reason phrase and `url` is the built URL |
| Http.HttpClient.constructor | src/http/client.ts:21-27 | the client keeps the given base URL and headers |
| Http.HttpClient.SetHeader | src/http/client.ts:29-31 | exactly the named header takes the value; every other stored header is unchanged |
| Http.SetHeaderReachesLaterRequests | src/http/client.ts:29-44 | a header set with `setHeader` reaches every later instance request, unless that request names the same header itself |
| Http.HttpClient.Get | src/http/client.ts:33-44 | a GET with no body to base URL + path. Stored headers are overridden key by key by the call's own; the query and status check are the call's |
| Http.HttpClient.Post | src/http/client.ts:46-55 | a POST with the call's body to base URL + path, with the same header merge |
| Http.HttpClient.Request | src/http/client.ts:57-66 | the caller's verb and body to base URL + path, with the same header merge |
| Http.Bind | src/http/client.ts:33-66 | what every instance method hands on: an absent or empty path leaves the base URL alone, and the headers are the stored ones overridden by the call's |
| Cas.CAS.constructor | src/cas/cas.ts:11-16 | the CAS client keeps its URL and service URL, and its HTTP client starts with that URL and no stored headers |
| Cas.Assign | src/cas/cas.ts:40 | an object assignment keeps every existing key in its place and adds at most one entry |
| Cas.AssignLookup | src/cas/cas.ts:40 | after `acc[name] = value` the name reads the value and every other key reads as before |
| Cas.AssignPlaces | src/cas/cas.ts:40 | an existing key is overwritten in place; a new key is appended |
| Cas.AssignUnique | src/cas/cas.ts:40 | assignment keeps the keys unique |
| Cas.FormDataOf | src/cas/cas.ts:35-43 | the reference definition of the `reduce` over the hidden inputs; Cas.FormDataKeys, Cas.FormDataLastWins, Cas.FormDataUnique and Cas.FormDataEmpty state its properties |
| Cas.CollectFormData | src/cas/cas.ts:35-43 | the loop over the hidden inputs builds exactly the form data of the `reduce` |
| Cas.FormDataKeys | src/cas/cas.ts:35-43 | a key is in the form data exactly when some hidden input has it as a non-empty name |
| Cas.FormDataLastWins | src/cas/cas.ts:37-42 | the last input with a given name decides its value, and a missing value becomes "" |
| Cas.FormDataUnique | src/cas/cas.ts:35-43 | every key of the form data occurs once |
| Cas.FormDataEmpty | src/cas/cas.ts:45 | the form data is empty exactly when no hidden input has a non-empty name |
| Cas.Spread | src/cas/cas.ts:57-61 | the spread keeps the keys of the earlier object in their places |
| Cas.SpreadGet | src/cas/cas.ts:57-61 | each key of the spread reads the later object's value when it has one, else the earlier object's |
| Cas.PostParamsFields | src/cas/cas.ts:57-61 | the POST body starts with username then password, and a hidden field of the same name overrides them in place |
| Cas.TicketFrom | src/cas/cas.ts:64-73 | a missing `location`, or one without "ticket", fails with the redirect message. Otherwise the result is the `ticket` query parameter, or the empty-ticket error when that is missing or empty |
| Cas.PageRequestShape | src/cas/cas.ts:19-26 | the login page GET goes to the CAS URL with `service=<service URL>` as query, no body and the configured User-Agent |
| Cas.PostRequestShape | src/cas/cas.ts:50-62 | the credentials POST goes to the same URL with the same User-Agent, as a form whose body parses back to the credentials spread with the form data |
| Cas.LoginOutcome | src/cas/cas.ts:18-74 | the reference definition of the login exchange from the two replies; Cas.LoginTicket and the lemmas around it state its outcomes |
| Cas.LoginPageRejected | src/cas/cas.ts:28-31 | a login page outside 2xx fails with `<status> <statusText>` in the message, and no POST is made |
| Cas.LoginWithoutFormData | src/cas/cas.ts:45-48 | a 2xx page without a named hidden input fails with the form-data message before any POST |
| Cas.LoginRequestsCarryService | src/cas/cas.ts:19-26 | every login request goes to the CAS URL with the service URL as its one query parameter and the configured User-Agent |
| Cas.LoginQueryIsService | src/cas/cas.ts:20-22 | on a CAS URL without a query of its own, the query sent parses back to exactly `service=<service URL>` |
| Cas.LoginPostsCredentials | src/cas/cas.ts:50-62 | the POST is made exactly when the page is 2xx and has a named hidden input, and its body is the credentials spread with the form data |
| Cas.LoginAnswered | src/cas/cas.ts:64-73 | once the POST is made, the result is exactly what the answer's `location` header yields |
| Cas.LoginTicket | src/cas/cas.ts:18-74 | a ticket is returned exactly when the page is 2xx with a named hidden input and the redirect yields a non-empty ticket |
| Cas.CAS.Login | src/cas/cas.ts:18-74 | the method's ticket or error and its requests are those of the login exchange for the client's URL and headers |
| Intranet.CookieHeader | src/intranet/client.ts:22-24 | the header is `PHPSESSID=` followed by the id, or by "undefined" when there is none |
| Intranet.FindSessionCookie | src/intranet/client.ts:45-47 | `None` exactly when no cookie starts with `PHPSESSID=`; otherwise a cookie that does |
| Intranet.TrimSpaceTab | src/intranet/client.ts:54 | the trimmed value is a slice of the value with only spaces and tabs cut before and after it, and it neither starts nor ends with a space or tab |
| Intranet.CookieSegment | src/intranet/client.ts:54 | the segment is the text after `PHPSESSID=` up to, and not including, the first `;` (or to the end when there is none) |
| Intranet.CookieValue | src/intranet/client.ts:54 | the value is the segment with its leading and trailing spaces and tabs cut off and then one pair of enclosing double quotes removed; it has no `;` and is no longer than the entry after the key |
| Intranet.TrimmedUnique | src/intranet/client.ts:54 | the trimming of a segment is determined by it, so the value is a function of the entry |
| Intranet.Unquote | src/intranet/client.ts:54 | a quoted text is the result between two `"`, a lone `"` becomes empty, and unquoted text is kept |
| Intranet.SessionIdFrom | src/intranet/client.ts:38-59 | an id is found exactly when there is a `set-cookie` header with a `PHPSESSID=` entry whose parsed value is non-empty, and it is that value |
| Intranet.PlainCookieValue | src/intranet/client.ts:54 | `PHPSESSID=<v>; attrs` with a plain value yields `v` |
| Intranet.PortalLogin | src/intranet/client.ts:31-96 | the reference definition of the portal half of the login, after CAS; Intranet.PortalLoginResult and Intranet.PortalLoginReplayed state its outcomes |
| Intranet.LoginOutcome | src/intranet/client.ts:27-96 | the reference definition of the whole login from the client's settings and the five replies; Intranet.IntranetClient.Login is proved equal to it |
| Intranet.PortalLoginResult | src/intranet/client.ts:27-96 | the login succeeds exactly when CAS yields a ticket and both portal answers carry a session id, and the id is the second answer's. A CAS error is passed on; each missing cookie fails with its own message (1/2 or 2/2) |
| Intranet.PortalLoginReplayed | src/intranet/client.ts:61-96 | once the first answer carried a session id, both portal GETs are sent, and the login succeeds exactly when the second answer carries an id, which is the one returned |
| Intranet.TicketRequestShape | src/intranet/client.ts:31-36 | the first portal GET goes to the CAS entry point with the ticket as its only query parameter, no body and no Cookie |
| Intranet.ReplayRequestShape | src/intranet/client.ts:61-66 | the second GET carries the interim id as its Cookie and no query |
| Intranet.IntranetClient.constructor | src/intranet/client.ts:17-25 | the stored `Cookie` header renders the given id, and the client keeps the base URL and CAS entry point |
| Intranet.IntranetClient.Login | src/intranet/client.ts:27-96 | the result is the modelled login exchange. On success the session id becomes the new id and the Cookie header follows it; on failure the id is unchanged |
| Intranet.IntranetClient.Adopt | src/intranet/client.ts:91-95 | the field is set and only the `Cookie` header changes, to the new id |
| Intranet.PageFetch | src/intranet/client.ts:195-210 | without a session id (unset or empty) no request is sent and the result is `IntranetNotLoggedInError`. With one, one request is sent. Then 2xx hands on the page, 302 is `IntranetNotLoggedInError`, and any other status is an `IntranetError` |
| Intranet.PageRequestCarriesSession | src/intranet/client.ts:22-24 | every page request goes to the portal's base URL plus the page path and carries the session cookie |
| Intranet.PageFetchGuarded | src/intranet/client.ts:102-116 | the page fetch meets the guard every getter promises |
| Intranet.IntranetClient.GetMySlug | src/intranet/client.ts:101-129 | the guard and status handling on the profile page |
| Intranet.IntranetClient.GetMyAboutMe | src/intranet/client.ts:134-160 | the getter is the about-me exchange for the client's session, URL and headers: no request without a session, a missing or empty slug fails with "Could not get your slug!" after one request, and the about-me page's errors are those of its page fetch ("Could not GET your about me page: …") |
| Intranet.AboutMeFetch | src/intranet/client.ts:134-160 | no request without a session. Otherwise the profile page is fetched first; a missing or empty slug stops there with the slug error. A valid slug leads to a second request that is exactly the page fetch of `/etudiant/profil/<slug>/a-propos`, so a status other than 2xx and 302 gives "Could not GET your about me page: <status> <statusText>" |
| Intranet.AboutMeProfileRejected | src/intranet/client.ts:101-139 | a profile page outside 2xx stops `getMyAboutMe` after one request: a 302 gives `IntranetNotLoggedInError`, any other status the `IntranetError` "Could not GET your profile page: <status> <statusText>" |
| Intranet.IntranetClient.GetUserProfile | src/intranet/client.ts:165-190 | the getter is the page fetch of `/utilisateur/<type>/<slug>` for the client's session, URL and headers: the guard, one request carrying the session cookie by Intranet.PageRequestCarriesSession, and "Could not GET user profile page: <status> <statusText>" for a status other than 2xx and 302 |
| Intranet.IntranetClient.GetGrades | src/intranet/client.ts:195-268 | the guard and status handling on `/etudiant/profil/<slug>/notes`; a 2xx page yields its grade rows |
| Intranet.IntranetClient.GetClassmates | src/intranet/client.ts:273-297 | the getter is the page fetch of the class list path, with the group only when given, for the client's session, URL and headers: the guard, one request carrying the session cookie by Intranet.PageRequestCarriesSession, and "Could not GET your classmates page: <status> <statusText>" for a status other than 2xx and 302 |
| TrackerConstants.OrDefault | src/tracker/constants.ts:3-8 | `\|\| default` never yields a falsy number when the default is not 0 |
| TrackerConstants.TrimStart | src/tracker/constants.ts:3-8 | parseInt skips exactly the leading whitespace: what it drops is whitespace, and what is left starts with none |
| TrackerConstants.ParseInt | src/tracker/constants.ts:3-8 | parseInt yields a number only from text holding a decimal digit, and a negative one only from text holding a `-` |
| TrackerConstants.MagnitudeStartsWithDigit | src/tracker/constants.ts:3-8 | a magnitude is read only from text starting with a decimal digit |
| TrackerConstants.ParseSetting | src/tracker/constants.ts:3-8 | an unset variable reads as "undefined", which parses to NaN |
| TrackerConstants.Timeout | src/tracker/constants.ts:3 | TIMEOUT is never 0, is whole seconds in milliseconds, and is 14 400 000 ms when unset |
| TrackerConstants.MaxRetry | src/tracker/constants.ts:5 | MAX_RETRY is never 0 and is 3 when unset |
| TrackerConstants.LoginRetryDelay | src/tracker/constants.ts:7-8 | LOGIN_RETRY_DELAY is never 0, is whole seconds in milliseconds, and is 3 000 000 ms when unset |
| TrackerConstants.DigitPrefixLen | src/tracker/constants.ts:3-8 | parseInt reads the longest run of digits of the radix (16 after a `0x` prefix, else 10) |
| TrackerConstants.ParseIntOfRendered | src/tracker/constants.ts:3-8 | parseInt of a rendered integer followed by non-digits gives back the integer |
| TrackerConstants.ParseIntUnsigned | src/tracker/constants.ts:3-8 | on a text that starts with a digit, parseInt is the value of the digits it reads |
| TrackerConstants.ParseIntMinus | src/tracker/constants.ts:3-8 | a `-` in front of a readable magnitude negates it |
| TrackerConstants.ZeroDefaults | src/tracker/constants.ts:3-8 | a setting of 0 is falsy and takes the default too |
| TrackerConstants.IntegerSettings | src/tracker/constants.ts:3-8 | a non-zero integer setting is used as written, with seconds scaled to milliseconds, and negative retry counts pass through |
| Errors.Error.ToString | src/tracker/client.ts:183 | `${e}` starts with the error's name, and is the name alone exactly when the message is empty |
| Tracker.HashGrades | src/tracker/client.ts:56-61 | one hashed grade per grade, in order, each carrying the grade and its hash |
| Tracker.NewGrades | src/tracker/client.ts:107-109 | a grade is new exactly when it was fetched and no saved grade has its hash, and there are never more new grades than fetched ones |
| Tracker.NewGradesAppend | src/tracker/client.ts:107-109 | the filter distributes over concatenation, so it keeps the fetched order |
| Tracker.NewGradesEmpty | src/tracker/client.ts:107-111 | nothing is new exactly when every fetched hash is saved |
| Tracker.NewGradesAgainstNothing | src/tracker/client.ts:93-109 | against the freshly seeded `[]`, every fetched grade is new |
| Tracker.GradeFields | src/tracker/client.ts:112-124 | one field per new grade, in order, each being that grade's field |
| Tracker.Embed.FromBase | src/tracker/client.ts:146 | the copy starts as `BASE_EMBED` |
| Tracker.Embed.Push | src/tracker/client.ts:117 | a push appends the field and changes nothing else |
| Tracker.TrackerClient.PushFields | src/tracker/client.ts:112-124 | the loop appends exactly the fields of the new grades, in order, and changes nothing else of the embed |
| Tracker.BadNewsEmbed | src/tracker/client.ts:181-183 | title "Bad news!", colour 0xed1c24, the earlier fields followed by an `Error` field with the error's text, and thumbnail and footer kept |
| Tracker.Attempt | src/tracker/client.ts:68 | one login: the answer decides success, the login counter and trace advance by one, and a success stores the session id |
| Tracker.TrackerClient.PortalLogin | src/tracker/client.ts:68 | the portal client's login gives the world's answer for this attempt, and its session id follows a success and is kept on a failure |
| Tracker.TrackerClient.AttemptOnce | src/tracker/client.ts:68 | one attempt of the method agrees with `Tracker.Attempt` |
| Tracker.Retry | src/tracker/client.ts:63-84 | the reference definition of the retry loop; Tracker.RetryBehaviour, Tracker.RetryNoAttempts and Tracker.RetryOnlyLogins state its properties |
| Tracker.RetryBehaviour | src/tracker/client.ts:63-84 | between one and MAX_RETRY logins are made, stopping at the first success. The delay comes between attempts but not after the last. Failure means every attempt failed and gives "Maximum login attempts exceeded."; the session is the successful attempt's. Save file, fetches and sends are untouched |
| Tracker.RetryNoAttempts | src/tracker/client.ts:64-66 | with MAX_RETRY at most 0 the loop does nothing and returns normally |
| Tracker.RetryOnlyLogins | src/tracker/client.ts:63-84 | the retry loop only logs in and waits: it sends nothing and touches no file |
| Tracker.TrackerClient.LoginWithRetries | src/tracker/client.ts:63-84 | the method's result and new state are those of the retry loop |
| Tracker.Fetch | src/tracker/client.ts:86-92 | the reference definition of `fetchAndUpdateGrades`: the guarded grades request, then the save-file step; Tracker.FetchGradesPage, Tracker.FetchReportsNewGrades, Tracker.FetchFirstRun and Tracker.FetchFailures state its properties |
| Tracker.Update | src/tracker/client.ts:93-132 | the reference definition of the save-file step; Tracker.UpdateWritesIffNew and Tracker.UpdateFirstRun state its properties |
| Tracker.FetchGradesPage | src/tracker/client.ts:89-91 | with a session and a 2xx grades page, one request is recorded and the hashed rows go on to the save-file step |
| Tracker.UpdateWritesIffNew | src/tracker/client.ts:103-132 | the result is one field per new grade, and the save file is rewritten with all fetched grades exactly when some are new |
| Tracker.UpdateFirstRun | src/tracker/client.ts:93-127 | without a save file, the directory is made and `[]` written before the read, every grade is new, and the file ends up holding all of them |
| Tracker.FetchReportsNewGrades | src/tracker/client.ts:86-135 | a successful fetch yields one field per new grade, and the save file is rewritten exactly when some are new |
| Tracker.FetchFirstRun | src/tracker/client.ts:86-135 | the first run makes exactly the request, mkdir, seed write, read and final write, in that order |
| Tracker.FetchFailures | src/tracker/client.ts:89-105 | without a session nothing is requested and the call throws `IntranetNotLoggedInError`. A save file `JSON.parse` rejects throws a `SyntaxError` and leaves the file alone |
| Tracker.TrackerClient.FetchAndUpdateGrades | src/tracker/client.ts:86-135 | the method's result, the embed's new fields and the new state are those of the fetch-and-update function |
| Tracker.TrackerClient.UpdateSave | src/tracker/client.ts:93-132 | the save-file part of the method agrees with its function |
| Tracker.Cycle | src/tracker/client.ts:146-189 | the reference definition of one pass of the loop |
| Tracker.Handle | src/tracker/client.ts:154-189 | the reference definition of the pass after the fetch; Tracker.CycleRelogin, Tracker.CycleSendsNewGrades, Tracker.CycleReportsErrors and Tracker.BadNewsKeepsFields state its branches |
| Tracker.Loop | src/tracker/client.ts:145-190 | the reference definition of the `while (true)` loop for a number of passes: a pass that breaks returns, one that exits ends the process, any other leads to the next |
| Tracker.Startup | src/tracker/client.ts:139-143 | the reference definition of the login and slug lookup before the loop |
| Tracker.RunSpec | src/tracker/client.ts:137-195 | the reference definition of `run`; Tracker.RunLoginFailure, Tracker.RunWithoutSlug and Tracker.RunWithoutAttempts state its properties |
| Tracker.CycleRelogin | src/tracker/client.ts:161-177 | a lost session triggers one retry loop and nothing is sent. A successful re-login skips the `TIMEOUT` sleep; a failed one leaves the loop |
| Tracker.CycleSendsNewGrades | src/tracker/client.ts:146-159 | a fetch without new grades sends nothing and sleeps TIMEOUT. New grades are sent in the `BASE_EMBED` copy; a delivered send sleeps TIMEOUT, and a failed send is reported with the grade fields kept |
| Tracker.CycleReportsErrors | src/tracker/client.ts:178-189 | any other error is sent as "Bad news!" with an Error field. A delivered report sleeps TIMEOUT; a failed one exits with code 1 |
| Tracker.BadNewsKeepsFields | src/tracker/client.ts:178-193 | a report keeps the fields already pushed and puts the error last. It sleeps exactly when it was delivered, and exits with code 1 otherwise |
| Tracker.TrackerClient.RunCycle | src/tracker/client.ts:146-189 | one pass of the loop agrees with its function |
| Tracker.TrackerClient.Respond | src/tracker/client.ts:154-187 | the handling of the fetch outcome agrees with its function |
| Tracker.TrackerClient.Report | src/tracker/client.ts:178-186 | the report branch agrees with its function |
| Tracker.TrackerClient.Start | src/tracker/client.ts:139-143 | the login and slug lookup agree with their function |
| Tracker.TrackerClient.Poll | src/tracker/client.ts:145-190 | the loop, for the given number of passes, agrees with its function |
| Tracker.TrackerClient.Run | src/tracker/client.ts:137-195 | `run` agrees with its function |
| Tracker.TrackerClient.constructor | src/tracker/client.ts:32-46 | the tracker starts with a portal client without a session id, configured from the same settings, and the save file as it is on disk |
| Tracker.RunLoginFailure | src/tracker/client.ts:139-193 | a failed initial login is a critical failure: the process exits with code 1 right after the retries |
| Tracker.RunWithoutSlug | src/tracker/client.ts:141-143 | a missing or empty slug, or a slug lookup that throws, ends the process with code 1 |
| Tracker.RunWithoutAttempts | src/tracker/client.ts:63-66 | with MAX_RETRY at most 0 and no session, `run` makes no request and exits with code 1 |

## Left out

- Network I/O, TLS and redirect handling by undici are not modelled.
  Every answer is an input (`Http.RawResponse`, `Tracker.World`).
- HTML extraction with cheerio and the slug regex is not modelled. Bodies
  arrive already extracted: the hidden inputs, the slug and the grade rows.
- The grade rows' parsing is not modelled: `parseFloat`, luxon date
  parsing and the `GRADES_HEADERS` column mapping. A grade is a record and
  its mark an optional real.
- The SHA-1 of `JSON.stringify(grade)` in base64 is an uninterpreted
  function `Config.hash`, because neither hashing nor JSON rendering is
  modelled.
- Tracker.FieldName, Tracker.GradeFields: a field value is the record
  `GradeSummary(evaluation, date, mark, coefficient)`, not the rendered
  text. JS number and date rendering is not modelled.
- Intranet.CookieValue: `cookie.parse` is modelled up to `;`, with
  spaces and tabs trimmed and double quotes stripped. Percent-decoding of
  the value is not modelled.
- Filesystem failures other than a save file that `JSON.parse` rejects are
  not modelled: a failing mkdir, read or write, or a parsed value that is
  not an array of grades. The save file is a field of the tracker.
- `dirname(savePath)` and the webhook URL parsing in the
  `TrackerClient` constructor are not modelled. `MakeDir` stands for
  `mkdir(dirname(savePath), { recursive: true })`.
- The Discord webhook client is not modelled. A send is an outcome from
  the `World`, and the error a failed send throws is represented by its
  text (`Errors.Foreign`).
- Logging through `console.log` and `console.error` is not modelled.
  So the error a critical failure in `run` throws, such as "Failed to
  retrieve user slug.", is not recorded; only the `Exit(1)` it leads to is.
- Reading the environment variables in the entry point is not modelled.
  The settings are `Tracker.Config` parameters and constructor arguments.
- The `getMyAboutMe`, `getUserProfile` and `getClassmates` page bodies
  are unfinished in the source and their parsing is not modelled. The
  model covers the guard, paths and status handling of all three, with
  their error messages, including, for `getMyAboutMe`, the profile page
  it reads first.
- Tracker.TrackerClient.Run: `while (true)` runs for at most `fuel`
  passes. Behaviour after that many passes is not modelled.
- `new URL(location)` throwing on a malformed location is not modelled,
  and neither is URL normalisation. Cas.TicketFrom reads the `ticket`
  parameter from the text after the first `?`, up to any `#`.
- TrackerConstants.ParseInt: integers are unbounded, so the loss of
  precision a JS number suffers above 2^53 is not modelled.
- FormUrlEncoded: strings are sequences of Unicode scalar values, so a
  lone UTF-16 surrogate, which `URLSearchParams` serialises as U+FFFD,
  cannot be represented.
- Intranet.IntranetClient.GetUserProfile: the default `userType =
  UserType.STUDENT` is not modelled; the user type is always passed.
- Intranet.IntranetClient.GetClassmates: `semester` and `groupType` are
  integers, so a fractional or NaN number cannot be passed, and a NaN
  group (falsy, so left out of the path) is not represented.
- JS object key ordering for integer-like keys is not modelled:
  `Cas.Record` keeps insertion order.
- `Language.FRENCH` is defined outside the files of this model. It is
  taken to be "fr".
- The `delay` calls are not modelled as time. They are trace actions:
  `Delay` between login attempts, and `Sleep` after each pass.
