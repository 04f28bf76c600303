/** The ticket handshake of src/cas/cas.ts: fetch the login page, fold its
    hidden inputs into a record, post them with the credentials, and read
    the service ticket off the redirect. The two HTTP answers are inputs;
    the page's answer carries the hidden inputs cheerio would find in it. */
module Cas {
  import opened Wrappers
  import Text
  import FormUrlEncoded
  import Http
  import opened Errors

  /** One `input[type="hidden"]`: its `name` attribute and its value, either
      of which may be missing. */
  datatype HiddenInput = HiddenInput(name: Option<string>, value: Option<string>)

  /** A JS object with string values: its keys in insertion order. */
  type Record = seq<(string, string)>

  /** `rec[k]`: the value under the first occurrence of `k`. */
  function Lookup(rec: Record, k: string): Option<string>
    decreases |rec|
  {
    if |rec| == 0 then None
    else if rec[0].0 == k then Some(rec[0].1)
    else Lookup(rec[1..], k)
  }

  predicate UniqueKeys(rec: Record) {
    forall i, j :: 0 <= i < j < |rec| ==> rec[i].0 != rec[j].0
  }

  /** `rec[k] = v`: an existing key keeps its place and takes the new value,
      a new key goes last. */
  function Assign(rec: Record, k: string, v: string): (r: Record)
    ensures |rec| <= |r| <= |rec| + 1
    ensures forall i :: 0 <= i < |rec| ==> r[i].0 == rec[i].0
    decreases |rec|
  {
    if |rec| == 0 then [(k, v)]
    else if rec[0].0 == k then [(k, v)] + rec[1..]
    else [rec[0]] + Assign(rec[1..], k, v)
  }

  /** After `rec[k] = v`, `k` reads `v` and every other key reads as before. */
  lemma {:induction false} AssignLookup(rec: Record, k: string, v: string, j: string)
    ensures Lookup(Assign(rec, k, v), j) == if j == k then Some(v) else Lookup(rec, j)
    decreases |rec|
  {
    if |rec| > 0 && rec[0].0 != k {
      AssignLookup(rec[1..], k, v, j);
    }
  }

  /** An existing key is overwritten in place; a new one is appended. */
  lemma {:induction false} AssignPlaces(rec: Record, k: string, v: string)
    ensures Lookup(rec, k).None? ==> Assign(rec, k, v) == rec + [(k, v)]
    ensures Lookup(rec, k).Some? ==> |Assign(rec, k, v)| == |rec|
    decreases |rec|
  {
    if |rec| > 0 && rec[0].0 != k {
      AssignPlaces(rec[1..], k, v);
    }
  }

  /** A key is present exactly when some entry has it. */
  lemma {:induction false} LookupSome(rec: Record, k: string)
    ensures Lookup(rec, k).Some? <==> exists i :: 0 <= i < |rec| && rec[i].0 == k
    decreases |rec|
  {
    if |rec| > 0 {
      LookupSome(rec[1..], k);
      if exists i :: 0 <= i < |rec| && rec[i].0 == k {
        var i :| 0 <= i < |rec| && rec[i].0 == k;
        if i > 0 { assert rec[1..][i - 1].0 == k; }
      }
    }
  }

  /** Assignment keeps keys unique. */
  lemma AssignUnique(rec: Record, k: string, v: string)
    requires UniqueKeys(rec)
    ensures UniqueKeys(Assign(rec, k, v))
  {
    AssignPlaces(rec, k, v);
    LookupSome(rec, k);
  }

  /** `if (name)`: a name attribute counts when present and non-empty. */
  predicate Named(input: HiddenInput) {
    input.name.Some? && input.name.value != ""
  }

  /** The `reduce` over the hidden inputs, in document order. */
  function FormDataOf(inputs: seq<HiddenInput>): Record
    decreases |inputs|
  {
    if |inputs| == 0 then []
    else
      var acc := FormDataOf(inputs[..|inputs| - 1]);
      var input := inputs[|inputs| - 1];
      if Named(input) then Assign(acc, input.name.value, input.value.GetOr("")) else acc
  }

  /** The fold as the source runs it, one input at a time into the
      accumulator. */
  method CollectFormData(inputs: seq<HiddenInput>) returns (acc: Record)
    ensures acc == FormDataOf(inputs)
  {
    acc := [];
    for i := 0 to |inputs|
      invariant acc == FormDataOf(inputs[..i])
    {
      assert inputs[..i + 1][..i] == inputs[..i];
      var input := inputs[i];
      if input.name.Some? && input.name.value != "" {
        acc := Assign(acc, input.name.value, input.value.GetOr(""));
      }
    }
    assert inputs[..|inputs|] == inputs;
  }

  /** A key is in the form data exactly when some hidden input is named so. */
  lemma {:induction false} FormDataKeys(inputs: seq<HiddenInput>, k: string)
    ensures Lookup(FormDataOf(inputs), k).Some?
            <==> exists i :: 0 <= i < |inputs| && Named(inputs[i]) && inputs[i].name.value == k
    decreases |inputs|
  {
    if |inputs| > 0 {
      var init := inputs[..|inputs| - 1];
      FormDataKeys(init, k);
      var last := inputs[|inputs| - 1];
      if Named(last) {
        AssignLookup(FormDataOf(init), last.name.value, last.value.GetOr(""), k);
      }
      if exists i :: 0 <= i < |init| && Named(init[i]) && init[i].name.value == k {
        var i :| 0 <= i < |init| && Named(init[i]) && init[i].name.value == k;
        assert inputs[i] == init[i];
      }
      if exists i :: 0 <= i < |inputs| && Named(inputs[i]) && inputs[i].name.value == k {
        var i :| 0 <= i < |inputs| && Named(inputs[i]) && inputs[i].name.value == k;
        if i < |init| { assert init[i] == inputs[i]; }
      }
    }
  }

  /** The last input carrying a name decides its value; a missing value
      becomes the empty string. */
  lemma {:induction false} FormDataLastWins(inputs: seq<HiddenInput>, i: nat)
    requires i < |inputs| && Named(inputs[i])
    requires forall j :: i < j < |inputs| ==> inputs[j].name != inputs[i].name
    ensures Lookup(FormDataOf(inputs), inputs[i].name.value) == Some(inputs[i].value.GetOr(""))
    decreases |inputs|
  {
    var init := inputs[..|inputs| - 1];
    var last := inputs[|inputs| - 1];
    if i < |inputs| - 1 {
      assert init[i] == inputs[i];
      FormDataLastWins(init, i);
    }
    if Named(last) {
      AssignLookup(FormDataOf(init), last.name.value, last.value.GetOr(""), inputs[i].name.value);
    }
  }

  /** Every key of the form data occurs once. */
  lemma {:induction false} FormDataUnique(inputs: seq<HiddenInput>)
    ensures UniqueKeys(FormDataOf(inputs))
    decreases |inputs|
  {
    if |inputs| > 0 {
      var init := inputs[..|inputs| - 1];
      var last := inputs[|inputs| - 1];
      FormDataUnique(init);
      if Named(last) {
        AssignUnique(FormDataOf(init), last.name.value, last.value.GetOr(""));
      }
    }
  }

  /** The form data is empty exactly when no hidden input has a name. */
  lemma FormDataEmpty(inputs: seq<HiddenInput>)
    ensures |FormDataOf(inputs)| == 0 <==> forall i :: 0 <= i < |inputs| ==> !Named(inputs[i])
  {
    var fd := FormDataOf(inputs);
    if |fd| > 0 {
      FormDataKeys(inputs, fd[0].0);
    }
    if i :| 0 <= i < |inputs| && Named(inputs[i]) {
      FormDataKeys(inputs, inputs[i].name.value);
    }
  }

  /** `{ ...base, ...rec }`: the keys of `base` keep their places, and the
      keys of `rec` are assigned in order. */
  function Spread(base: Record, rec: Record): (r: Record)
    ensures |base| <= |r|
    ensures forall i :: 0 <= i < |base| ==> r[i].0 == base[i].0
    decreases |rec|
  {
    if |rec| == 0 then base
    else
      var base' := Assign(base, rec[0].0, rec[0].1);
      assert forall i :: 0 <= i < |base| ==> base'[i].0 == base[i].0;
      Spread(base', rec[1..])
  }

  /** With unique keys in `rec`, each key of the spread takes its value from
      `rec` when `rec` has it and from `base` otherwise. */
  lemma {:induction false} SpreadGet(base: Record, rec: Record, k: string)
    requires UniqueKeys(rec)
    ensures Lookup(Spread(base, rec), k)
            == if Lookup(rec, k).Some? then Lookup(rec, k) else Lookup(base, k)
    decreases |rec|
  {
    if |rec| > 0 {
      var base' := Assign(base, rec[0].0, rec[0].1);
      assert UniqueKeys(rec[1..]);
      SpreadGet(base', rec[1..], k);
      AssignLookup(base, rec[0].0, rec[0].1, k);
      if k == rec[0].0 {
        LookupSome(rec[1..], k);
        assert Lookup(rec[1..], k).None? by {
          forall i | 0 <= i < |rec[1..]| ensures rec[1..][i].0 != k {
            assert rec[1..][i] == rec[i + 1];
          }
        }
      }
    }
  }

  function Credentials(username: string, password: string): Record {
    [("username", username), ("password", password)]
  }

  /** The parameters of the POST body. */
  function PostParams(username: string, password: string, formData: Record): Record {
    Spread(Credentials(username, password), formData)
  }

  /** The POST body starts with username and password; a hidden field of
      either name overrides the credential, the other fields are the form
      data's own. */
  lemma PostParamsFields(username: string, password: string, formData: Record)
    requires UniqueKeys(formData)
    ensures var ps := PostParams(username, password, formData);
      && |ps| >= 2 && ps[0].0 == "username" && ps[1].0 == "password"
      && Lookup(ps, "username") == Some(Lookup(formData, "username").GetOr(username))
      && Lookup(ps, "password") == Some(Lookup(formData, "password").GetOr(password))
      && forall k :: k != "username" && k != "password" ==>
           Lookup(ps, k) == Lookup(formData, k)
  {
    SpreadGet(Credentials(username, password), formData, "username");
    SpreadGet(Credentials(username, password), formData, "password");
    forall k | k != "username" && k != "password"
      ensures Lookup(PostParams(username, password, formData), k) == Lookup(formData, k)
    {
      SpreadGet(Credentials(username, password), formData, k);
      var creds := Credentials(username, password);
      assert creds[1..][1..] == [];
      assert Lookup(creds, k) == Lookup(creds[1..][1..], k);
    }
  }

  // ---------------------------------------------------------------------
  // The redirect

  /** `String(location)`: an array of values joins with commas. */
  function LocationText(v: Http.HeaderValue): string {
    match v
    case Single(s) => s
    case Multiple(vs) => Text.Join(vs, ",")
  }

  /** `location.includes("ticket")`: a substring search on a string, an
      element search on an array. (`!location` adds nothing: an empty string
      has no such substring and an empty array no such element.) */
  predicate MentionsTicket(v: Http.HeaderValue) {
    match v
    case Single(s) => Text.Contains(s, "ticket")
    case Multiple(vs) => "ticket" in vs
  }

  const RedirectMessage := "CAS didnt redirect properly!"
  const EmptyTicketMessage := "CAS ticket is empty!"

  /** The checks on the POST's answer and the ticket they yield. */
  function TicketFrom(headers: Http.ResponseHeaders): (r: Result<string, Error>)
    ensures !("location" in headers && MentionsTicket(headers["location"])) ==> r == Err(CASError(RedirectMessage))
    ensures "location" in headers && MentionsTicket(headers["location"]) ==>
      var ticket := FormUrlEncoded.SearchParam(LocationText(headers["location"]), "ticket");
      if ticket.Some? && ticket.value != "" then r == Ok(ticket.value) else r == Err(CASError(EmptyTicketMessage))
  {
    if "location" !in headers || !MentionsTicket(headers["location"]) then Err(CASError(RedirectMessage))
    else
      match FormUrlEncoded.SearchParam(LocationText(headers["location"]), "ticket")
      case Some(t) => if t == "" then Err(CASError(EmptyTicketMessage)) else Ok(t)
      case None => Err(CASError(EmptyTicketMessage))
  }

  // ---------------------------------------------------------------------
  // The login

  const LoginPagePrefix := "Could not GET CAS login page: "
  const NoFormDataMessage := "Could not get form data (execution, _eventId, geolocation)!"

  function ServiceQuery(serviceUrl: string): FormUrlEncoded.Params {
    [("service", serviceUrl)]
  }

  /** The options of the login page GET. */
  function PageCall(serviceUrl: string, userAgent: string): Http.CallOptions {
    Http.CallOptions(None, Http.Absent, Some(map["User-Agent" := userAgent]), Some(ServiceQuery(serviceUrl)), None)
  }

  /** The options of the credentials POST. */
  function CredentialsCall(serviceUrl: string, userAgent: string, params: Record): Http.CallOptions {
    Http.CallOptions(None, Http.SearchParams(params), Some(map["User-Agent" := userAgent]),
                     Some(ServiceQuery(serviceUrl)), None)
  }

  /** The login page GET as sent. */
  function PageRequest(casUrl: string, stored: Http.Headers, serviceUrl: string, userAgent: string): Http.WireRequest {
    Http.Prepare(Http.Bind(casUrl, stored, Http.GET, PageCall(serviceUrl, userAgent)))
  }

  /** The credentials POST as sent. */
  function PostRequest(casUrl: string, stored: Http.Headers, serviceUrl: string, userAgent: string,
                       params: Record): Http.WireRequest {
    Http.Prepare(Http.Bind(casUrl, stored, Http.POST, CredentialsCall(serviceUrl, userAgent, params)))
  }

  /** The login page GET goes to the CAS URL with the service query, no body
      and the user agent. */
  lemma PageRequestShape(casUrl: string, stored: Http.Headers, serviceUrl: string, userAgent: string)
    ensures var w := PageRequest(casUrl, stored, serviceUrl, userAgent);
      && w.verb == Http.GET && w.body.None?
      && w.url == Http.RequestUrl(casUrl, Some(ServiceQuery(serviceUrl)))
      && "User-Agent" in w.headers && w.headers["User-Agent"] == userAgent
  {
    var opts := Http.Bind(casUrl, stored, Http.GET, PageCall(serviceUrl, userAgent));
    assert opts.headers.value["User-Agent"] == userAgent;
    assert "User-Agent" != "Content-Type" by { assert |"User-Agent"| != |"Content-Type"|; }
  }

  /** The credentials POST goes to the same URL with the same user agent, as
      a form whose body parses back to `params`. */
  lemma PostRequestShape(casUrl: string, stored: Http.Headers, serviceUrl: string, userAgent: string,
                         params: Record)
    ensures var w := PostRequest(casUrl, stored, serviceUrl, userAgent, params);
      && w.verb == Http.POST
      && w.url == Http.RequestUrl(casUrl, Some(ServiceQuery(serviceUrl)))
      && "User-Agent" in w.headers && w.headers["User-Agent"] == userAgent
      && "Content-Type" in w.headers && w.headers["Content-Type"] == "application/x-www-form-urlencoded"
      && w.body.Some? && FormUrlEncoded.Parse(w.body.value) == params
  {
    var opts := Http.Bind(casUrl, stored, Http.POST, CredentialsCall(serviceUrl, userAgent, params));
    assert opts.headers.value["User-Agent"] == userAgent;
    assert opts.body == Http.SearchParams(params);
    assert "User-Agent" != "Content-Type" by { assert |"User-Agent"| != |"Content-Type"|; }
  }

  /** What a login returns (the ticket or the error it throws) and the
      requests it sends, in order. */
  datatype Exchange = Exchange(result: Result<string, Error>, sent: seq<Http.WireRequest>)

  /** `login` against a client with base URL `casUrl` and stored headers
      `stored`, given the answers to the GET and to the POST. */
  function LoginOutcome(casUrl: string, stored: Http.Headers, serviceUrl: string, userAgent: string,
                        username: string, password: string,
                        page: Http.RawResponse<seq<HiddenInput>>, answer: Http.RawResponse<()>): Exchange
  {
    var getOpts := Http.Bind(casUrl, stored, Http.GET, PageCall(serviceUrl, userAgent));
    var pageResp := Http.Receive(getOpts, page);
    var sentPage := PageRequest(casUrl, stored, serviceUrl, userAgent);
    if !pageResp.ok then
      Exchange(Err(CASError(LoginPagePrefix + Http.HttpErrorMessage(pageResp))), [sentPage])
    else
      var formData := FormDataOf(page.body);
      if |formData| == 0 then
        Exchange(Err(CASError(NoFormDataMessage)), [sentPage])
      else
        var params := PostParams(username, password, formData);
        var postOpts := Http.Bind(casUrl, stored, Http.POST, CredentialsCall(serviceUrl, userAgent, params));
        var answerResp := Http.Receive(postOpts, answer);
        Exchange(TicketFrom(answerResp.headers),
                 [sentPage, PostRequest(casUrl, stored, serviceUrl, userAgent, params)])
  }

  /** A login page answered outside 2xx fails with the status in the message,
      and nothing is posted. */
  lemma LoginPageRejected(casUrl: string, stored: Http.Headers, serviceUrl: string, userAgent: string,
                          username: string, password: string,
                          page: Http.RawResponse<seq<HiddenInput>>, answer: Http.RawResponse<()>)
    requires !(200 <= page.statusCode < 300)
    ensures var x := LoginOutcome(casUrl, stored, serviceUrl, userAgent, username, password, page, answer);
      && x.result == Err(CASError(LoginPagePrefix + (Text.IntToString(page.statusCode) + " "
                                                    + Http.StatusText(page.statusCode))))
      && |x.sent| == 1 && x.sent[0].verb == Http.GET
  {
    PageRequestShape(casUrl, stored, serviceUrl, userAgent);
  }

  /** A 2xx login page without a named hidden input fails before the POST. */
  lemma LoginWithoutFormData(casUrl: string, stored: Http.Headers, serviceUrl: string, userAgent: string,
                             username: string, password: string,
                             page: Http.RawResponse<seq<HiddenInput>>, answer: Http.RawResponse<()>)
    requires 200 <= page.statusCode < 300
    requires forall i :: 0 <= i < |page.body| ==> !Named(page.body[i])
    ensures var x := LoginOutcome(casUrl, stored, serviceUrl, userAgent, username, password, page, answer);
      x.result == Err(CASError(NoFormDataMessage)) && |x.sent| == 1
  {
    FormDataEmpty(page.body);
  }

  /** Every request of a login goes to the CAS URL with `service` as its one
      query parameter and carries the user agent. */
  lemma LoginRequestsCarryService(casUrl: string, stored: Http.Headers, serviceUrl: string, userAgent: string,
                                  username: string, password: string,
                                  page: Http.RawResponse<seq<HiddenInput>>, answer: Http.RawResponse<()>)
    ensures var x := LoginOutcome(casUrl, stored, serviceUrl, userAgent, username, password, page, answer);
      && 1 <= |x.sent| <= 2
      && x.sent[0].verb == Http.GET
      && x.sent[0].url == Http.RequestUrl(casUrl, Some(ServiceQuery(serviceUrl)))
      && "User-Agent" in x.sent[0].headers && x.sent[0].headers["User-Agent"] == userAgent
      && (|x.sent| == 2 ==>
            && x.sent[1].url == Http.RequestUrl(casUrl, Some(ServiceQuery(serviceUrl)))
            && "User-Agent" in x.sent[1].headers && x.sent[1].headers["User-Agent"] == userAgent)
  {
    PageRequestShape(casUrl, stored, serviceUrl, userAgent);
    PostRequestShape(casUrl, stored, serviceUrl, userAgent, PostParams(username, password, FormDataOf(page.body)));
  }

  /** With a CAS URL that has no query or fragment of its own, the query of
      every request is exactly `service=<serviceUrl>`. */
  lemma LoginQueryIsService(casUrl: string, serviceUrl: string)
    requires '?' !in casUrl && '#' !in casUrl
    ensures FormUrlEncoded.Parse(FormUrlEncoded.QueryOf(Http.RequestUrl(casUrl, Some(ServiceQuery(serviceUrl)))))
            == ServiceQuery(serviceUrl)
  {
  }

  /** The POST is made exactly when the page is 2xx and has a named hidden
      input; it sends a form body holding the credentials merged with the
      form data. */
  lemma LoginPostsCredentials(casUrl: string, stored: Http.Headers, serviceUrl: string, userAgent: string,
                              username: string, password: string,
                              page: Http.RawResponse<seq<HiddenInput>>, answer: Http.RawResponse<()>)
    ensures var x := LoginOutcome(casUrl, stored, serviceUrl, userAgent, username, password, page, answer);
      && (|x.sent| == 2 <==> 200 <= page.statusCode < 300 && exists i :: 0 <= i < |page.body| && Named(page.body[i]))
      && (|x.sent| == 2 ==>
            && x.sent[1].verb == Http.POST
            && "Content-Type" in x.sent[1].headers
            && x.sent[1].headers["Content-Type"] == "application/x-www-form-urlencoded"
            && x.sent[1].body.Some?
            && FormUrlEncoded.Parse(x.sent[1].body.value) == PostParams(username, password, FormDataOf(page.body))
            && x.result == TicketFrom(answer.headers))
  {
    FormDataEmpty(page.body);
    PostRequestShape(casUrl, stored, serviceUrl, userAgent, PostParams(username, password, FormDataOf(page.body)));
  }

  /** A ticket is returned exactly when the page is 2xx with a named hidden
      input and the redirect names a non-empty `ticket`; it is that value. */
  lemma LoginTicket(casUrl: string, stored: Http.Headers, serviceUrl: string, userAgent: string,
                    username: string, password: string,
                    page: Http.RawResponse<seq<HiddenInput>>, answer: Http.RawResponse<()>)
    ensures var x := LoginOutcome(casUrl, stored, serviceUrl, userAgent, username, password, page, answer);
      var ticket := if "location" in answer.headers
                    then FormUrlEncoded.SearchParam(LocationText(answer.headers["location"]), "ticket")
                    else None;
      && (x.result.Ok? <==>
            && 200 <= page.statusCode < 300
            && (exists i :: 0 <= i < |page.body| && Named(page.body[i]))
            && "location" in answer.headers && MentionsTicket(answer.headers["location"])
            && ticket.Some? && ticket.value != "")
      && (x.result.Ok? ==> ticket == Some(x.result.value))
  {
    if !(200 <= page.statusCode < 300) {
      LoginPageRejected(casUrl, stored, serviceUrl, userAgent, username, password, page, answer);
    } else if forall i :: 0 <= i < |page.body| ==> !Named(page.body[i]) {
      LoginWithoutFormData(casUrl, stored, serviceUrl, userAgent, username, password, page, answer);
    } else {
      LoginAnswered(casUrl, stored, serviceUrl, userAgent, username, password, page, answer);
    }
  }

  /** Once the POST is made, the result is what its answer yields. */
  lemma LoginAnswered(casUrl: string, stored: Http.Headers, serviceUrl: string, userAgent: string,
                      username: string, password: string,
                      page: Http.RawResponse<seq<HiddenInput>>, answer: Http.RawResponse<()>)
    requires 200 <= page.statusCode < 300
    requires exists i :: 0 <= i < |page.body| && Named(page.body[i])
    ensures LoginOutcome(casUrl, stored, serviceUrl, userAgent, username, password, page, answer).result
            == TicketFrom(answer.headers)
  {
    FormDataEmpty(page.body);
  }

  class CAS {
    const url: string
    const serviceUrl: string
    const http: Http.HttpClient

    /** `casUrl` is the `CAS_URL` setting. */
    constructor(casUrl: string, serviceUrl: string)
      ensures url == casUrl && this.serviceUrl == serviceUrl
      ensures fresh(http) && http.url == casUrl && http.headers == map[]
    {
      url := casUrl;
      this.serviceUrl := serviceUrl;
      http := new Http.HttpClient(casUrl, map[]);
    }

    /** `login`; `userAgent` is the `USER_AGENT` setting. */
    method Login(username: string, password: string, userAgent: string,
                 page: Http.RawResponse<seq<HiddenInput>>, answer: Http.RawResponse<()>)
      returns (x: Exchange)
      ensures x == LoginOutcome(http.url, http.headers, serviceUrl, userAgent, username, password, page, answer)
    {
      var getOpts := http.Get(PageCall(serviceUrl, userAgent));
      var resp := Http.Receive(getOpts, page);
      if !resp.ok {
        return Exchange(Err(CASError(LoginPagePrefix + Http.HttpErrorMessage(resp))), [Http.Prepare(getOpts)]);
      }
      var formData := CollectFormData(page.body);
      if |formData| == 0 {
        return Exchange(Err(CASError(NoFormDataMessage)), [Http.Prepare(getOpts)]);
      }
      var postOpts := http.Post(CredentialsCall(serviceUrl, userAgent, PostParams(username, password, formData)));
      var answerResp := Http.Receive(postOpts, answer);
      x := Exchange(TicketFrom(answerResp.headers), [Http.Prepare(getOpts), Http.Prepare(postOpts)]);
    }
  }
}
