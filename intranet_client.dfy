/** The portal client of src/intranet/client.ts: the session cookie kept in
    the client's field and in its HTTP client's `Cookie` header, the
    two-step `PHPSESSID` exchange after the CAS ticket, and the guard every
    page getter shares. Page answers are inputs carrying what the HTML
    extraction would yield from them. */
module Intranet {
  import opened Wrappers
  import Text
  import FormUrlEncoded
  import Http
  import Cas
  import opened Errors

  datatype UserType = Student | Staff

  /** The enum's string values. */
  function UserTypeText(u: UserType): string {
    match u
    case Student => "etudiant"
    case Staff => "personnel"
  }

  datatype Subject = Subject(short: string, full: Option<string>)

  /** One row of the grades table. The date is luxon's `toUnixInteger()`
      of the parsed date; mark and coefficient are `null` when the cell
      does not parse as a number. */
  datatype Grade = Grade(
    subject: Subject,
    evaluation: string,
    date: int,
    comment: string,
    grade: Option<real>,
    coefficient: Option<real>,
    id: Option<string>)

  /** `Language.FRENCH`, the prefix of every page path. */
  const French := "fr"

  // ---------------------------------------------------------------------
  // The session cookie

  const SessionKey := "PHPSESSID="

  /** `PHPSESSID=${id}`: an unset id renders as "undefined". */
  function CookieHeader(id: Option<string>): (r: string)
    ensures Text.StartsWith(r, SessionKey)
    ensures r[|SessionKey|..] == if id.Some? then id.value else "undefined"
  {
    SessionKey + match id case Some(s) => s case None => "undefined"
  }

  /** The stored headers of the portal's HTTP client. */
  function SessionHeaders(id: Option<string>): Http.Headers {
    map["Cookie" := CookieHeader(id)]
  }

  /** `!this.PHPSESSID` fails for an unset and for an empty id. */
  predicate LoggedIn(id: Option<string>) {
    id.Some? && id.value != ""
  }

  /** `Array.isArray(setCookie) ? setCookie : [setCookie]` */
  function CookieList(v: Http.HeaderValue): seq<string> {
    match v
    case Single(s) => [s]
    case Multiple(vs) => vs
  }

  /** `.find((c) => c.startsWith("PHPSESSID="))` */
  function FindSessionCookie(cs: seq<string>): (r: Option<string>)
    ensures r.None? <==> forall i :: 0 <= i < |cs| ==> !Text.StartsWith(cs[i], SessionKey)
    ensures r.Some? ==> exists i :: 0 <= i < |cs| && cs[i] == r.value && Text.StartsWith(cs[i], SessionKey)
                                     && forall j :: 0 <= j < i ==> !Text.StartsWith(cs[j], SessionKey)
    decreases |cs|
  {
    if |cs| == 0 then None
    else if Text.StartsWith(cs[0], SessionKey) then Some(cs[0])
    else
      var r := FindSessionCookie(cs[1..]);
      assert forall j :: 1 <= j < |cs| ==> cs[j] == cs[1..][j - 1];
      r
  }

  predicate SpaceOrTab(c: char) {
    c == ' ' || c == '\t'
  }

  /** `r` is `s[a..]` cut to `|r|` characters, and everything `s` has
      before and after that slice is a space or a tab. */
  predicate PaddedAt(s: string, r: string, a: int) {
    && 0 <= a <= |s| - |r| && r == s[a..a + |r|]
    && (forall i :: 0 <= i < a ==> SpaceOrTab(s[i]))
    && (forall i :: a + |r| <= i < |s| ==> SpaceOrTab(s[i]))
  }

  lemma PaddedBehindSpace(s: string, r: string, a: int)
    requires |s| > 0 && SpaceOrTab(s[0]) && PaddedAt(s[1..], r, a)
    ensures PaddedAt(s, r, a + 1)
  {
    assert forall i :: 1 <= i < |s| ==> s[i] == s[1..][i - 1];
  }

  lemma PaddedBeforeSpace(s: string, r: string, a: int)
    requires |s| > 0 && SpaceOrTab(s[|s| - 1]) && PaddedAt(s[..|s| - 1], r, a)
    ensures PaddedAt(s, r, a)
  {
    assert forall i :: 0 <= i < |s| - 1 ==> s[i] == s[..|s| - 1][i];
  }

  /** The value with leading and trailing spaces and tabs removed. */
  function TrimSpaceTab(s: string): (r: string)
    ensures |r| <= |s|
    ensures |r| > 0 ==> !SpaceOrTab(r[0]) && !SpaceOrTab(r[|r| - 1])
    ensures exists a :: PaddedAt(s, r, a)
    decreases |s|
  {
    if |s| > 0 && SpaceOrTab(s[0]) then
      var r := TrimSpaceTab(s[1..]);
      var a :| PaddedAt(s[1..], r, a);
      PaddedBehindSpace(s, r, a);
      r
    else if |s| > 0 && SpaceOrTab(s[|s| - 1]) then
      var r := TrimSpaceTab(s[..|s| - 1]);
      var a :| PaddedAt(s[..|s| - 1], r, a);
      PaddedBeforeSpace(s, r, a);
      r
    else
      assert PaddedAt(s, s, 0);
      s
  }

  /** The text of a session cookie entry after `PHPSESSID=`, up to the
      first `;`. */
  function CookieSegment(entry: string): (seg: string)
    requires Text.StartsWith(entry, SessionKey)
    ensures Text.StartsWith(entry[|SessionKey|..], seg)
    ensures ';' !in seg
    ensures |SessionKey| + |seg| < |entry| ==> entry[|SessionKey| + |seg|] == ';'
  {
    var rest := entry[|SessionKey|..];
    match Text.IndexOf(rest, ';')
    case None => rest
    case Some(k) => rest[..k]
  }

  /** `v` is `s` with its leading and trailing spaces and tabs cut off. */
  predicate TrimmedAt(s: string, v: string, a: int) {
    PaddedAt(s, v, a) && (|v| > 0 ==> !SpaceOrTab(v[0]) && !SpaceOrTab(v[|v| - 1]))
  }

  /** Trimming is determined by the text: two trimmings of it agree. */
  lemma TrimmedUnique(s: string, v1: string, a1: int, v2: string, a2: int)
    requires TrimmedAt(s, v1, a1) && TrimmedAt(s, v2, a2)
    ensures v1 == v2
  {
    if |v1| > 0 {
      TrimmedEnds(s, v1, a1);
    }
    if |v2| > 0 {
      TrimmedEnds(s, v2, a2);
    }
  }

  /** A non-empty trimming starts and ends on characters kept from the text. */
  lemma TrimmedEnds(s: string, v: string, a: int)
    requires TrimmedAt(s, v, a) && |v| > 0
    ensures !SpaceOrTab(s[a]) && !SpaceOrTab(s[a + |v| - 1])
  {
    assert s[a] == v[0] && s[a + |v| - 1] == v[|v| - 1];
  }

  /** `cookie.parse(entry).PHPSESSID` for an entry that starts with
      `PHPSESSID=`: the text after the `=` up to the first `;`, with spaces
      and tabs trimmed and one pair of enclosing double quotes removed. */
  function CookieValue(entry: string): (r: string)
    requires Text.StartsWith(entry, SessionKey)
    ensures exists a, v :: TrimmedAt(CookieSegment(entry), v, a) && r == Unquote(v)
    ensures |SessionKey| + |r| <= |entry|
    ensures ';' !in r
  {
    var seg := CookieSegment(entry);
    var v := TrimSpaceTab(seg);
    var a :| PaddedAt(seg, v, a);
    PaddedWithin(seg, v, a);
    assert TrimmedAt(seg, v, a);
    Unquote(v)
  }

  /** The text with one pair of enclosing double quotes removed: a quoted
      `v` is `r` between quotes, a lone `"` becomes empty, and any other
      text is kept. */
  function Unquote(v: string): (r: string)
    ensures |v| >= 2 && v[0] == '"' && v[|v| - 1] == '"' ==> v == "\"" + r + "\""
    ensures v == "\"" ==> r == ""
    ensures !(|v| > 0 && v[0] == '"' && v[|v| - 1] == '"') ==> r == v
    ensures |r| <= |v| && forall c :: c in r ==> c in v
  {
    if |v| > 0 && v[0] == '"' && v[|v| - 1] == '"' then
      if |v| >= 2 then
        var r := v[1..|v| - 1];
        assert forall k :: 0 <= k < |r| ==> r[k] == v[k + 1];
        assert v == "\"" + r + "\"";
        r
      else ""
    else v
  }

  /** The characters of a padded slice all occur in the text. */
  lemma PaddedWithin(s: string, r: string, a: int)
    requires PaddedAt(s, r, a)
    ensures forall c :: c in r ==> c in s
  {
    assert forall k :: 0 <= k < |r| ==> r[k] == s[a + k];
  }

  /** The session id an answer's `set-cookie` yields, or `None` when the
      header is missing, no entry is the session cookie, or its value is
      empty. */
  function SessionIdFrom(headers: Http.ResponseHeaders): (r: Option<string>)
    ensures r.Some? ==> r.value != ""
    ensures r.Some? <==>
      "set-cookie" in headers
      && FindSessionCookie(CookieList(headers["set-cookie"])).Some?
      && CookieValue(FindSessionCookie(CookieList(headers["set-cookie"])).value) != ""
    ensures r.Some? ==> r.value == CookieValue(FindSessionCookie(CookieList(headers["set-cookie"])).value)
  {
    if "set-cookie" !in headers then None
    else
      match FindSessionCookie(CookieList(headers["set-cookie"]))
      case None => None
      case Some(entry) =>
        var v := CookieValue(entry);
        if v == "" then None else Some(v)
  }

  /** A `set-cookie` entry `PHPSESSID=<v>; ...` with a plain value yields `v`. */
  lemma PlainCookieValue(v: string, attrs: string)
    requires v != "" && ';' !in v && !SpaceOrTab(v[0]) && !SpaceOrTab(v[|v| - 1]) && v[0] != '"'
    ensures CookieValue(SessionKey + v + ";" + attrs) == v
  {
    var entry := SessionKey + v + ";" + attrs;
    assert entry[|SessionKey|..] == v + ";" + attrs;
    Text.IndexOfAfter(v, ';', attrs);
    assert (v + ";" + attrs)[..|v|] == v;
  }

  // ---------------------------------------------------------------------
  // Login

  const Cookie1Message := "Could not get Intranet PHPSESSID cookie 1/2!"
  const Cookie2Message := "Could not get Intranet PHPSESSID cookie 2/2!"

  /** The answers a login meets: the CAS login page, the CAS redirect, and
      the two portal answers. */
  datatype LoginReplies = LoginReplies(
    casPage: Http.RawResponse<seq<Cas.HiddenInput>>,
    casAnswer: Http.RawResponse<()>,
    first: Http.RawResponse<()>,
    second: Http.RawResponse<()>)

  /** What a call returns (or throws) and the requests it sends. */
  datatype Fetched<B> = Fetched(result: Result<B, Error>, sent: seq<Http.WireRequest>)

  /** `${this.url}${SERVICE_CAS_PATH}`: the portal's CAS entry point, also
      the service URL given to CAS. */
  function LoginUrl(url: string, casPath: string): string {
    url + casPath
  }

  /** The first portal GET: the ticket as query, no headers of its own. */
  function TicketRequest(loginUrl: string, ticket: string): Http.RequestOptions {
    Http.RequestOptions(Http.GET, loginUrl, Http.Absent, None, Some([("ticket", ticket)]), None)
  }

  /** The second portal GET: the interim cookie, no query. */
  function ReplayRequest(loginUrl: string, id: string): Http.RequestOptions {
    Http.RequestOptions(Http.GET, loginUrl, Http.Absent, Some(map["Cookie" := SessionKey + id]), None, None)
  }

  /** `login` after `this.cas.login` answered `cas`: a CAS error is passed
      on, and the session id is the one of the second portal answer. */
  function PortalLogin(loginUrl: string, cas: Cas.Exchange,
                       first: Http.RawResponse<()>, second: Http.RawResponse<()>): Fetched<string>
  {
    if cas.result.Err? then Fetched(Err(cas.result.error), cas.sent)
    else
      var ticketReq := TicketRequest(loginUrl, cas.result.value);
      var sent1 := cas.sent + [Http.Prepare(ticketReq)];
      match SessionIdFrom(first.headers)
      case None => Fetched(Err(IntranetError(Cookie1Message)), sent1)
      case Some(id1) =>
        var replayReq := ReplayRequest(loginUrl, id1);
        var sent2 := sent1 + [Http.Prepare(replayReq)];
        match SessionIdFrom(second.headers)
        case None => Fetched(Err(IntranetError(Cookie2Message)), sent2)
        case Some(id2) => Fetched(Ok(id2), sent2)
  }

  /** The whole exchange of a login with the given answers. */
  function LoginOutcome(url: string, casPath: string, casUrl: string, userAgent: string,
                        username: string, password: string, replies: LoginReplies): Fetched<string>
  {
    var loginUrl := LoginUrl(url, casPath);
    PortalLogin(loginUrl,
                Cas.LoginOutcome(casUrl, map[], loginUrl, userAgent, username, password,
                                 replies.casPage, replies.casAnswer),
                replies.first, replies.second)
  }

  /** A login succeeds exactly when CAS yields a ticket and both portal
      answers carry a session cookie; the id returned is the second one.
      After the CAS requests come the ticket GET and, once the first answer
      carried a session id, the replay GET. */
  lemma PortalLoginResult(loginUrl: string, cas: Cas.Exchange,
                          first: Http.RawResponse<()>, second: Http.RawResponse<()>)
    ensures var f := PortalLogin(loginUrl, cas, first, second);
      var id1 := SessionIdFrom(first.headers);
      var id2 := SessionIdFrom(second.headers);
      && (cas.result.Err? ==> f.result == Err(cas.result.error) && f.sent == cas.sent)
      && (cas.result.Ok? && id1.None? ==>
            && f.result == Err(IntranetError(Cookie1Message))
            && f.sent == cas.sent + [Http.Prepare(TicketRequest(loginUrl, cas.result.value))])
      && (cas.result.Ok? && id1.Some? ==>
            && f.sent == cas.sent + [Http.Prepare(TicketRequest(loginUrl, cas.result.value)),
                                     Http.Prepare(ReplayRequest(loginUrl, id1.value))]
            && (f.result.Ok? <==> id2.Some?)
            && (f.result.Ok? ==> f.result.value == id2.value && f.result.value != "")
            && (f.result.Err? ==> f.result == Err(IntranetError(Cookie2Message))))
  {
    if cas.result.Ok? && SessionIdFrom(first.headers).Some? {
      PortalLoginReplayed(loginUrl, cas, first, second);
    }
  }

  /** The case of `PortalLoginResult` where both GETs are sent. */
  lemma PortalLoginReplayed(loginUrl: string, cas: Cas.Exchange,
                            first: Http.RawResponse<()>, second: Http.RawResponse<()>)
    requires cas.result.Ok? && SessionIdFrom(first.headers).Some?
    ensures var f := PortalLogin(loginUrl, cas, first, second);
      var id2 := SessionIdFrom(second.headers);
      && f.sent == cas.sent + [Http.Prepare(TicketRequest(loginUrl, cas.result.value)),
                               Http.Prepare(ReplayRequest(loginUrl, SessionIdFrom(first.headers).value))]
      && (f.result.Ok? <==> id2.Some?)
      && (f.result.Ok? ==> f.result.value == id2.value && f.result.value != "")
      && (f.result.Err? ==> f.result == Err(IntranetError(Cookie2Message)))
  {
    var t := Http.Prepare(TicketRequest(loginUrl, cas.result.value));
    var r := Http.Prepare(ReplayRequest(loginUrl, SessionIdFrom(first.headers).value));
    AppendTwo(cas.sent, t, r);
  }

  lemma AppendTwo<T>(s: seq<T>, a: T, b: T)
    ensures s + [a] + [b] == s + [a, b]
  {
  }

  /** The ticket GET carries the ticket as its only query parameter and no
      cookie. */
  lemma TicketRequestShape(loginUrl: string, ticket: string)
    ensures var w := Http.Prepare(TicketRequest(loginUrl, ticket));
      && w.verb == Http.GET && w.body.None?
      && w.url == Http.RequestUrl(loginUrl, Some([("ticket", ticket)]))
      && "Cookie" !in w.headers
  {
  }

  /** The replay GET carries the interim id as its cookie and no query. */
  lemma ReplayRequestShape(loginUrl: string, id: string)
    ensures var w := Http.Prepare(ReplayRequest(loginUrl, id));
      && w.verb == Http.GET && w.body.None?
      && w.url == loginUrl
      && w.headers["Cookie"] == SessionKey + id
  {
  }

  // ---------------------------------------------------------------------
  // The page getters

  const ProfilePath := "/utilisateur/mon-profil"
  const SlugMessage := "Could not get your slug!"

  function AboutMePath(slug: string): string { "/etudiant/profil/" + slug + "/a-propos" }
  function UserProfilePath(slug: string, u: UserType): string { "/utilisateur/" + UserTypeText(u) + "/" + slug }
  function GradesPath(slug: string): string { "/etudiant/profil/" + slug + "/notes" }

  /** `/trombinoscope/etudiant/<semester>`, then `/<group>` when the group
      number is given and not 0. */
  function ClassmatesPath(semester: int, groupType: Option<int>): string {
    "/trombinoscope/" + UserTypeText(Student) + "/" + Text.IntToString(semester)
    + if groupType.Some? && groupType.value != 0 then "/" + Text.IntToString(groupType.value) else ""
  }

  /** The options of a page GET through the portal's HTTP client. */
  function PageOptions(base: string, stored: Http.Headers, path: string): Http.RequestOptions {
    Http.Bind(base, stored, Http.GET, Http.CallOptions(Some(path), Http.Absent, None, None, None))
  }

  /** `Could not GET <page>: <status> <statusText>` */
  function PageErrorMessage(page: string, status: int): string {
    "Could not GET " + page + ": " + (Text.IntToString(status) + " " + Http.StatusText(status))
  }

  /** The guard of a page getter: no request without a session id; a 302
      means the session is gone; any other status outside 2xx is an error
      naming the page and the status. */
  function PageFetch<B>(id: Option<string>, base: string, stored: Http.Headers, path: string,
                        reply: Http.RawResponse<B>, page: string): (f: Fetched<B>)
    ensures !LoggedIn(id) ==> f == Fetched(Err(IntranetNotLoggedInError), [])
    ensures LoggedIn(id) ==> f.sent == [Http.Prepare(PageOptions(base, stored, path))]
    ensures LoggedIn(id) && 200 <= reply.statusCode < 300 ==> f.result == Ok(reply.body)
    ensures LoggedIn(id) && reply.statusCode == 302 ==> f.result == Err(IntranetNotLoggedInError)
    ensures LoggedIn(id) && !(200 <= reply.statusCode < 300) && reply.statusCode != 302 ==>
      f.result == Err(IntranetError(PageErrorMessage(page, reply.statusCode)))
  {
    if !LoggedIn(id) then Fetched(Err(IntranetNotLoggedInError), [])
    else
      var opts := PageOptions(base, stored, path);
      var resp := Http.Receive(opts, reply);
      var result :=
        if resp.ok then Ok(reply.body)
        else if resp.status == 302 then Err(IntranetNotLoggedInError)
        else Err(IntranetError("Could not GET " + page + ": " + Http.HttpErrorMessage(resp)));
      Fetched(result, [Http.Prepare(opts)])
  }

  /** A page request goes to the portal's base URL plus the page path and
      carries the session cookie. */
  lemma PageRequestCarriesSession<B>(id: Option<string>, base: string, path: string,
                                     reply: Http.RawResponse<B>, page: string)
    requires LoggedIn(id)
    ensures var f := PageFetch(id, base, SessionHeaders(id), path, reply, page);
      && f.sent[0].verb == Http.GET && f.sent[0].url == base + path && f.sent[0].body.None?
      && f.sent[0].headers["Cookie"] == SessionKey + id.value
  {
  }

  /** What every page getter promises: no request and
      `IntranetNotLoggedInError` without a session id; otherwise one GET of
      the base URL plus the page path, whose 2xx reply is the result, whose
      302 means the session is gone and whose other statuses are an
      `IntranetError`. */
  ghost predicate Guarded<B>(id: Option<string>, base: string, path: string, reply: Http.RawResponse<B>, f: Fetched<B>) {
    && (!LoggedIn(id) ==> f == Fetched(Err(IntranetNotLoggedInError), []))
    && (LoggedIn(id) ==> |f.sent| == 1 && f.sent[0].verb == Http.GET && f.sent[0].url == base + path)
    && (LoggedIn(id) && 200 <= reply.statusCode < 300 ==> f.result == Ok(reply.body))
    && (LoggedIn(id) && reply.statusCode == 302 ==> f.result == Err(IntranetNotLoggedInError))
    && (LoggedIn(id) && !(200 <= reply.statusCode < 300) && reply.statusCode != 302 ==>
          f.result.Err? && f.result.error.IntranetError?)
  }

  lemma PageFetchGuarded<B>(id: Option<string>, base: string, stored: Http.Headers, path: string,
                            reply: Http.RawResponse<B>, page: string)
    ensures Guarded(id, base, path, reply, PageFetch(id, base, stored, path, reply, page))
  {
  }

  /** `getMyAboutMe`: the guard, then `getMySlug`, then the page. */
  function AboutMeFetch<B>(id: Option<string>, base: string, stored: Http.Headers,
                           slugReply: Http.RawResponse<Option<string>>, reply: Http.RawResponse<B>): (f: Fetched<B>)
    ensures !LoggedIn(id) ==> f == Fetched(Err(IntranetNotLoggedInError), [])
    ensures LoggedIn(id) ==> 1 <= |f.sent| <= 2 && f.sent[0].url == base + ProfilePath
    ensures LoggedIn(id) && 200 <= slugReply.statusCode < 300 && (slugReply.body.None? || slugReply.body == Some("")) ==>
      f == Fetched(Err(IntranetError(SlugMessage)), f.sent[..1])
    ensures LoggedIn(id) && 200 <= slugReply.statusCode < 300 && slugReply.body.Some? && slugReply.body.value != "" ==>
      && |f.sent| == 2
      && Guarded(id, base, AboutMePath(slugReply.body.value), reply, Fetched(f.result, f.sent[1..]))
      && Fetched(f.result, f.sent[1..]) == PageFetch(id, base, stored, AboutMePath(slugReply.body.value), reply, "your about me page")
  {
    if !LoggedIn(id) then Fetched(Err(IntranetNotLoggedInError), [])
    else
      var s := PageFetch(id, base, stored, ProfilePath, slugReply, "your profile page");
      PageFetchGuarded(id, base, stored, ProfilePath, slugReply, "your profile page");
      if s.result.Err? then Fetched(Err(s.result.error), s.sent)
      else if s.result.value.None? || s.result.value.value == "" then Fetched(Err(IntranetError(SlugMessage)), s.sent)
      else
        var a := PageFetch(id, base, stored, AboutMePath(s.result.value.value), reply, "your about me page");
        PageFetchGuarded(id, base, stored, AboutMePath(s.result.value.value), reply, "your about me page");
        assert (s.sent + a.sent)[1..] == a.sent;
        Fetched(a.result, s.sent + a.sent)
  }

  /** A profile page outside 2xx stops `getMyAboutMe` after one request
      with the error `getMySlug` throws: `IntranetNotLoggedInError` for a
      302, otherwise an `IntranetError` naming the profile page and the
      status. */
  lemma AboutMeProfileRejected<B>(id: Option<string>, base: string, stored: Http.Headers,
                                  slugReply: Http.RawResponse<Option<string>>, reply: Http.RawResponse<B>)
    requires LoggedIn(id) && !(200 <= slugReply.statusCode < 300)
    ensures var f := AboutMeFetch(id, base, stored, slugReply, reply);
      && |f.sent| == 1 && f.result.Err?
      && (f.result.error == IntranetNotLoggedInError <==> slugReply.statusCode == 302)
      && (slugReply.statusCode != 302 ==>
            f.result.error == IntranetError(PageErrorMessage("your profile page", slugReply.statusCode)))
  {
    var s := PageFetch(id, base, stored, ProfilePath, slugReply, "your profile page");
    assert s.result.Err?;
  }

  class IntranetClient {
    /** `SERVICE_URL` */
    const url: string
    /** `SERVICE_CAS_PATH` */
    const casPath: string
    const cas: Cas.CAS
    const http: Http.HttpClient
    var PHPSESSID: Option<string>

    /** The client's `Cookie` header always renders its session field, and
        the CAS client is a separate object with no stored headers. */
    predicate Valid()
      reads this, http, cas.http
    {
      && http.url == url + "/" + French
      && http.headers == SessionHeaders(PHPSESSID)
      && cas.serviceUrl == LoginUrl(url, casPath)
      && cas.http != http
      && cas.http.headers == map[]
    }

    /** `serviceUrl` and `casPath` are the `SERVICE_URL` and
        `SERVICE_CAS_PATH` settings, `casUrl` is `CAS_URL`. */
    constructor(serviceUrl: string, casPath: string, casUrl: string, id: Option<string>)
      ensures Valid()
      ensures url == serviceUrl && this.casPath == casPath && cas.http.url == casUrl
      ensures PHPSESSID == id && http.headers["Cookie"] == CookieHeader(id)
      ensures fresh(http) && fresh(cas) && fresh(cas.http)
    {
      url := serviceUrl;
      this.casPath := casPath;
      cas := new Cas.CAS(casUrl, LoginUrl(serviceUrl, casPath));
      PHPSESSID := id;
      http := new Http.HttpClient(serviceUrl + "/" + French, map["Cookie" := CookieHeader(id)]);
    }

    /** `login`: the session field and the `Cookie` header change together,
        and only when both portal answers carried a session id. */
    method Login(username: string, password: string, userAgent: string, replies: LoginReplies)
      returns (f: Fetched<string>)
      requires Valid()
      modifies this, http
      ensures Valid()
      ensures f == LoginOutcome(url, casPath, cas.http.url, userAgent, username, password, replies)
      ensures f.result.Ok? ==> PHPSESSID == Some(f.result.value)
      ensures f.result.Err? ==> PHPSESSID == old(PHPSESSID)
    {
      var x := cas.Login(username, password, userAgent, replies.casPage, replies.casAnswer);
      f := PortalLogin(LoginUrl(url, casPath), x, replies.first, replies.second);
      if f.result.Ok? {
        Adopt(f.result.value);
      }
    }

    /** The last two steps of `login`: the field, then the header. */
    method Adopt(id: string)
      requires Valid()
      modifies this, http
      ensures Valid() && PHPSESSID == Some(id)
      ensures http.headers == old(http.headers)["Cookie" := SessionKey + id]
    {
      PHPSESSID := Some(id);
      http.SetHeader("Cookie", CookieHeader(PHPSESSID));
    }

    /** `getMySlug`: the slug the profile page links to, if any. */
    function GetMySlug(reply: Http.RawResponse<Option<string>>): (f: Fetched<Option<string>>)
      reads this, http
      ensures f == PageFetch(PHPSESSID, http.url, http.headers, ProfilePath, reply, "your profile page")
      ensures Guarded(PHPSESSID, http.url, ProfilePath, reply, f)
    {
      PageFetchGuarded(PHPSESSID, http.url, http.headers, ProfilePath, reply, "your profile page");
      PageFetch(PHPSESSID, http.url, http.headers, ProfilePath, reply, "your profile page")
    }

    /** `getMyAboutMe`, up to its unfinished page parsing. */
    function GetMyAboutMe<B>(slugReply: Http.RawResponse<Option<string>>, reply: Http.RawResponse<B>): (f: Fetched<B>)
      reads this, http
      ensures f == AboutMeFetch(PHPSESSID, http.url, http.headers, slugReply, reply)
      ensures !LoggedIn(PHPSESSID) ==> f == Fetched(Err(IntranetNotLoggedInError), [])
      ensures LoggedIn(PHPSESSID) && 200 <= slugReply.statusCode < 300
              && (slugReply.body.None? || slugReply.body == Some("")) ==>
        f.result == Err(IntranetError(SlugMessage)) && |f.sent| == 1
    {
      AboutMeFetch(PHPSESSID, http.url, http.headers, slugReply, reply)
    }

    /** `getUserProfile`, up to its unfinished page parsing. */
    function GetUserProfile<B>(slug: string, userType: UserType, reply: Http.RawResponse<B>): (f: Fetched<B>)
      reads this, http
      ensures f == PageFetch(PHPSESSID, http.url, http.headers, UserProfilePath(slug, userType), reply, "user profile page")
      ensures Guarded(PHPSESSID, http.url, UserProfilePath(slug, userType), reply, f)
    {
      PageFetchGuarded(PHPSESSID, http.url, http.headers, UserProfilePath(slug, userType), reply, "user profile page");
      PageFetch(PHPSESSID, http.url, http.headers, UserProfilePath(slug, userType), reply, "user profile page")
    }

    /** `getGrades`: the rows of the grades table. */
    function GetGrades(slug: string, reply: Http.RawResponse<seq<Grade>>): (f: Fetched<seq<Grade>>)
      reads this, http
      ensures f == PageFetch(PHPSESSID, http.url, http.headers, GradesPath(slug), reply, "your grades page")
      ensures Guarded(PHPSESSID, http.url, GradesPath(slug), reply, f)
    {
      PageFetchGuarded(PHPSESSID, http.url, http.headers, GradesPath(slug), reply, "your grades page");
      PageFetch(PHPSESSID, http.url, http.headers, GradesPath(slug), reply, "your grades page")
    }

    /** `getClassmates`, up to its unfinished page parsing. */
    function GetClassmates<B>(semester: int, groupType: Option<int>, reply: Http.RawResponse<B>): (f: Fetched<B>)
      reads this, http
      ensures f == PageFetch(PHPSESSID, http.url, http.headers, ClassmatesPath(semester, groupType), reply, "your classmates page")
      ensures Guarded(PHPSESSID, http.url, ClassmatesPath(semester, groupType), reply, f)
    {
      PageFetchGuarded(PHPSESSID, http.url, http.headers, ClassmatesPath(semester, groupType), reply, "your classmates page");
      PageFetch(PHPSESSID, http.url, http.headers, ClassmatesPath(semester, groupType), reply, "your classmates page")
    }
  }
}
