/** The grade tracker of src/tracker/client.ts. Everything outside the
    process is an input or an action: the login answers, the profile and
    grades pages and the webhook's outcomes come from a `World`; the save
    file is a field; every file operation, webhook send, delay and exit is
    appended to a trace. `run`'s `while (true)` runs for a given number of
    cycles. */
module Tracker {
  import opened Wrappers
  import Http
  import Intranet
  import opened Errors

  type Grade = Intranet.Grade

  datatype HashedGrade = HashedGrade(grade: Grade, hash: string)

  /** `hashGrades`: each grade with the hash of that grade alone. */
  function HashGrades(gs: seq<Grade>, hash: Grade -> string): (r: seq<HashedGrade>)
    ensures |r| == |gs|
    ensures forall i :: 0 <= i < |gs| ==> r[i].grade == gs[i] && r[i].hash == hash(gs[i])
    decreases |gs|
  {
    if |gs| == 0 then [] else [HashedGrade(gs[0], hash(gs[0]))] + HashGrades(gs[1..], hash)
  }

  /** `oldGrades.some((o) => o.hash === hash)` */
  predicate Saved(hash: string, saved: seq<HashedGrade>) {
    exists i :: 0 <= i < |saved| && saved[i].hash == hash
  }

  /** The `filter` selecting the grades whose hash is not saved. */
  function NewGrades(fetched: seq<HashedGrade>, saved: seq<HashedGrade>): (r: seq<HashedGrade>)
    ensures |r| <= |fetched|
    ensures forall g :: g in r <==> g in fetched && !Saved(g.hash, saved)
    decreases |fetched|
  {
    if |fetched| == 0 then []
    else (if Saved(fetched[0].hash, saved) then [] else [fetched[0]]) + NewGrades(fetched[1..], saved)
  }

  /** The filter keeps the order of the fresh grades: it distributes over
      concatenation. */
  lemma {:induction false} NewGradesAppend(a: seq<HashedGrade>, b: seq<HashedGrade>, saved: seq<HashedGrade>)
    ensures NewGrades(a + b, saved) == NewGrades(a, saved) + NewGrades(b, saved)
    decreases |a|
  {
    if |a| > 0 {
      assert (a + b)[1..] == a[1..] + b;
      NewGradesAppend(a[1..], b, saved);
    } else {
      assert a + b == b;
    }
  }

  /** Nothing is new exactly when every fresh hash is saved. */
  lemma NewGradesEmpty(fetched: seq<HashedGrade>, saved: seq<HashedGrade>)
    ensures NewGrades(fetched, saved) == [] <==> forall i :: 0 <= i < |fetched| ==> Saved(fetched[i].hash, saved)
  {
    var r := NewGrades(fetched, saved);
    if r != [] {
      assert r[0] in r;
    }
    if i :| 0 <= i < |fetched| && !Saved(fetched[i].hash, saved) {
      assert fetched[i] in fetched;
    }
  }

  /** Against an empty snapshot every grade is new. */
  lemma {:induction false} NewGradesAgainstNothing(fetched: seq<HashedGrade>)
    ensures NewGrades(fetched, []) == fetched
    decreases |fetched|
  {
    if |fetched| > 0 {
      NewGradesAgainstNothing(fetched[1..]);
    }
  }

  // ---------------------------------------------------------------------
  // Embeds

  /** What a grade's field shows; the rendering of numbers and of the
      Discord timestamp are not modelled. */
  datatype FieldValue =
    | GradeSummary(evaluation: string, date: int, mark: Option<real>, coefficient: Option<real>)
    | Plain(text: string)

  datatype Field = Field(name: string, value: FieldValue)

  /** The field name built in the loop: the short subject, then
      ` | <full>` when the full name is truthy. */
  function FieldName(s: Intranet.Subject): (r: string)
    ensures s.full.Some? && s.full.value != "" ==> r == s.short + " | " + s.full.value
    ensures s.full.None? || s.full.value == "" ==> r == s.short
  {
    if s.full.Some? && s.full.value != "" then s.short + " | " + s.full.value else s.short
  }

  function GradeField(g: HashedGrade): Field {
    Field(FieldName(g.grade.subject),
          GradeSummary(g.grade.evaluation, g.grade.date, g.grade.grade, g.grade.coefficient))
  }

  /** One field per grade, in order. */
  function GradeFields(gs: seq<HashedGrade>): (r: seq<Field>)
    ensures |r| == |gs|
    ensures forall i :: 0 <= i < |gs| ==> r[i] == GradeField(gs[i])
    decreases |gs|
  {
    if |gs| == 0 then [] else [GradeField(gs[0])] + GradeFields(gs[1..])
  }

  lemma GradeFieldsSnoc(gs: seq<HashedGrade>, i: nat)
    requires i < |gs|
    ensures GradeFields(gs[..i + 1]) == GradeFields(gs[..i]) + [GradeField(gs[i])]
  {
  }

  const BaseTitle := "Nouvelle(s) note(s) disponible(s) !"
  const BaseColor := 0x06d6a0
  const ThumbnailUrl := "https://iut-rcc-intranet.univ-reims.fr/upload/logo/logo-iut-rcc.png"
  const FooterText := "IUT Grades Tracker bot \U{00A9} LockBlock-dev"
  const BadNewsTitle := "Bad news!"
  const BadNewsColor := 0xed1c24
  const MaxAttemptsMessage := "Maximum login attempts exceeded."

  /** An embed as it is sent. */
  datatype EmbedView = EmbedView(title: string, color: int, thumbnail: string, fields: seq<Field>, footer: string)

  /** `BASE_EMBED` */
  const BaseEmbed := EmbedView(BaseTitle, BaseColor, ThumbnailUrl, [], FooterText)

  /** The embed of one cycle, which the cycle edits in place. */
  class Embed {
    var title: string
    var color: int
    var fields: seq<Field>
    const thumbnail: string
    const footer: string

    function View(): EmbedView
      reads this
    {
      EmbedView(title, color, thumbnail, fields, footer)
    }

    /** `structuredClone(BASE_EMBED)` */
    constructor FromBase()
      ensures View() == BaseEmbed
    {
      title := BaseTitle;
      color := BaseColor;
      fields := [];
      thumbnail := ThumbnailUrl;
      footer := FooterText;
    }

    /** `embed.fields!.push(field)` */
    method Push(field: Field)
      modifies this
      ensures View() == old(View()).(fields := old(fields) + [field])
    {
      fields := fields + [field];
    }
  }

  /** The error report of a cycle: the embed retitled and recoloured, with
      an `Error` field after the fields it already had. */
  function BadNewsEmbed(e: EmbedView, error: Error): (r: EmbedView)
    ensures r.title == BadNewsTitle && r.color == BadNewsColor
    ensures r.fields == e.fields + [Field("Error", Plain(error.ToString()))]
    ensures r.thumbnail == e.thumbnail && r.footer == e.footer
  {
    e.(title := BadNewsTitle, color := BadNewsColor, fields := e.fields + [Field("Error", Plain(error.ToString()))])
  }

  // ---------------------------------------------------------------------
  // The environment and the abstract state

  /** The parsed save file; a file `JSON.parse` rejects is `Unparsable`. */
  datatype SaveContent = Snapshot(grades: seq<HashedGrade>) | Unparsable(reason: string)

  datatype Action =
    | LoginAttempt
    | Delay(ms: int)
    | FetchSlug
    | FetchGrades
    | MakeDir
    | WriteSave(content: SaveContent)
    | ReadSave
    | Send(embed: EmbedView)
    | Sleep(ms: int)
    | Exit(code: int)

  /** A webhook send either goes through or throws something rendering as
      the given text. */
  datatype SendOutcome = Delivered | Failed(rendered: string)

  /** The answers the world gives: to the n-th login attempt, to the slug
      lookup, to the n-th grades request and to the n-th webhook send. */
  datatype World = World(
    login: nat -> Intranet.LoginReplies,
    slug: Http.RawResponse<Option<string>>,
    grades: nat -> Http.RawResponse<seq<Grade>>,
    send: nat -> SendOutcome)

  /** The world as the tracker sees it: what each `intranetClient.login`
      call returns or throws. */
  datatype Env = Env(
    login: nat -> Result<string, Error>,
    slug: Http.RawResponse<Option<string>>,
    grades: nat -> Http.RawResponse<seq<Grade>>,
    send: nat -> SendOutcome)

  /** The settings: credentials, user agent, the portal and CAS addresses,
      the hash, and the three tracker constants. */
  datatype Config = Config(
    username: string,
    password: string,
    userAgent: string,
    serviceUrl: string,
    casPath: string,
    casUrl: string,
    hash: Grade -> string,
    timeout: int,
    maxRetry: int,
    loginRetryDelay: int)

  /** The state the tracker's steps change: the portal session id, the save
      file, how many logins, grade requests and sends the world has
      answered, and the trace. */
  datatype Sys = Sys(
    session: Option<string>,
    save: Option<SaveContent>,
    logins: nat,
    fetches: nat,
    sends: nat,
    trace: seq<Action>)

  function PortalBase(c: Config): string {
    c.serviceUrl + "/" + Intranet.French
  }

  /** The outcome of the n-th portal login against the world's answers. */
  function LoginResult(c: Config, w: World, n: nat): Result<string, Error> {
    Intranet.LoginOutcome(c.serviceUrl, c.casPath, c.casUrl, c.userAgent, c.username, c.password, w.login(n)).result
  }

  function Observed(c: Config, w: World): Env {
    Env((n: nat) => LoginResult(c, w, n), w.slug, w.grades, w.send)
  }

  /** `env` is what the tracker sees of `w`: the outcome of each login and
      the world's other answers as they are. */
  ghost predicate Observes(c: Config, env: Env, w: World) {
    && (forall n: nat {:trigger LoginResult(c, w, n)} :: env.login(n) == LoginResult(c, w, n))
    && SameAnswers(env, w)
  }

  /** The answers other than logins are the world's own. */
  ghost predicate SameAnswers(env: Env, w: World) {
    env.slug == w.slug && env.grades == w.grades && env.send == w.send
  }

  /** Every world has its view. */
  lemma ObservedObserves(c: Config, w: World)
    ensures Observes(c, Observed(c, w), w)
  {
  }

  function Emit(s: Sys, a: Action): Sys {
    s.(trace := s.trace + [a])
  }

  // ---------------------------------------------------------------------
  // loginWithRetries

  /** One `intranetClient.login`: a success sets the session id. */
  function Attempt(env: Env, s: Sys): (r: (bool, Sys))
    ensures r.0 == env.login(s.logins).Ok?
    ensures r.1.logins == s.logins + 1 && r.1.trace == s.trace + [LoginAttempt]
    ensures r.1.save == s.save && r.1.fetches == s.fetches && r.1.sends == s.sends
    ensures r.1.session == if r.0 then Some(env.login(s.logins).value) else s.session
  {
    var result := env.login(s.logins);
    var s1 := s.(logins := s.logins + 1, session := if result.Ok? then Some(result.value) else s.session);
    (result.Ok?, Emit(s1, LoginAttempt))
  }

  /** The `while (attempts < MAX_RETRY)` loop from `attempts` on. */
  function Retry(c: Config, env: Env, s: Sys, attempts: int): (Result<(), Error>, Sys)
    decreases c.maxRetry - attempts
  {
    if attempts >= c.maxRetry then (Ok(()), s)
    else
      var (ok, s1) := Attempt(env, s);
      if ok then (Ok(()), s1)
      else if attempts + 1 >= c.maxRetry then (Err(PlainError(MaxAttemptsMessage)), s1)
      else Retry(c, env, Emit(s1, Delay(c.loginRetryDelay)), attempts + 1)
  }

  /** One pass of the retry loop. */
  lemma RetryStep(c: Config, env: Env, s: Sys, attempts: int)
    requires attempts < c.maxRetry
    ensures var (ok, s1) := Attempt(env, s);
      Retry(c, env, s, attempts) ==
        if ok then (Ok(()), s1)
        else if attempts + 1 >= c.maxRetry then (Err(PlainError(MaxAttemptsMessage)), s1)
        else Retry(c, env, Emit(s1, Delay(c.loginRetryDelay)), attempts + 1)
  {
  }

  /** k login attempts with a delay between consecutive ones. */
  function AttemptsTrace(k: nat, delay: int): seq<Action>
    requires k >= 1
    decreases k
  {
    if k == 1 then [LoginAttempt] else [LoginAttempt, Delay(delay)] + AttemptsTrace(k - 1, delay)
  }

  /** The retry loop makes between one and `maxRetry - attempts` logins,
      stops at the first success, waits between attempts but not after the
      last, and fails only when every allowed attempt failed. */
  lemma {:induction false} RetryBehaviour(c: Config, env: Env, s: Sys, attempts: int)
    requires attempts < c.maxRetry
    ensures var (r, s') := Retry(c, env, s, attempts);
      var k := s'.logins - s.logins;
      && 1 <= k <= c.maxRetry - attempts
      && s'.trace == s.trace + AttemptsTrace(k, c.loginRetryDelay)
      && (forall j :: s.logins <= j < s.logins + k - 1 ==> env.login(j).Err?)
      && (r.Ok? <==> env.login(s.logins + k - 1).Ok?)
      && (r.Err? ==> k == c.maxRetry - attempts && r.error == PlainError(MaxAttemptsMessage))
      && (r.Ok? ==> s'.session == Some(env.login(s.logins + k - 1).value))
      && (r.Err? ==> s'.session == s.session)
      && s'.save == s.save && s'.fetches == s.fetches && s'.sends == s.sends
    decreases c.maxRetry - attempts
  {
    var (ok, s1) := Attempt(env, s);
    if !ok && attempts + 1 < c.maxRetry {
      var s2 := Emit(s1, Delay(c.loginRetryDelay));
      RetryBehaviour(c, env, s2, attempts + 1);
      var (r, s') := Retry(c, env, s2, attempts + 1);
      var k := s'.logins - s.logins;
      assert k >= 2;
      assert AttemptsTrace(k, c.loginRetryDelay) == [LoginAttempt, Delay(c.loginRetryDelay)] + AttemptsTrace(k - 1, c.loginRetryDelay);
      assert s'.trace == s.trace + [LoginAttempt] + [Delay(c.loginRetryDelay)] + AttemptsTrace(k - 1, c.loginRetryDelay);
    }
  }

  /** With no attempts allowed the loop does nothing and succeeds. */
  lemma RetryNoAttempts(c: Config, env: Env, s: Sys)
    requires c.maxRetry <= 0
    ensures Retry(c, env, s, 0) == (Ok(()), s)
  {
  }

  // ---------------------------------------------------------------------
  // fetchAndUpdateGrades

  /** The grades request, the save file seeding, the parse, the diff and the
      write; an `Ok` carries the fields the call pushes. */
  function Fetch(c: Config, env: Env, s: Sys, slug: string): (Result<seq<Field>, Error>, Sys)
  {
    var f := Intranet.PageFetch(s.session, PortalBase(c), Intranet.SessionHeaders(s.session),
                                Intranet.GradesPath(slug), env.grades(s.fetches), "your grades page");
    var s1 := if |f.sent| > 0 then Emit(s.(fetches := s.fetches + 1), FetchGrades) else s;
    if f.result.Err? then (Err(f.result.error), s1)
    else Update(s1, HashGrades(f.result.value, c.hash))
  }

  /** The save file part of `fetchAndUpdateGrades`, given the hashed grades. */
  function Update(s: Sys, graded: seq<HashedGrade>): (Result<seq<Field>, Error>, Sys)
  {
    var seeded := if s.save.None? then Emit(Emit(s, MakeDir), WriteSave(Snapshot([]))).(save := Some(Snapshot([]))) else s;
    var s1 := Emit(seeded, ReadSave);
    match s1.save.value
    case Unparsable(reason) => (Err(JsonSyntaxError(reason)), s1)
    case Snapshot(saved) =>
      var news := NewGrades(graded, saved);
      if |news| > 0 then (Ok(GradeFields(news)), Emit(s1.(save := Some(Snapshot(graded))), WriteSave(Snapshot(graded))))
      else (Ok([]), s1)
  }

  /** The saved snapshot the diff runs against: none yet counts as `[]`. */
  function SavedBefore(save: Option<SaveContent>): Option<seq<HashedGrade>> {
    match save
    case None => Some([])
    case Some(Snapshot(gs)) => Some(gs)
    case Some(Unparsable(_)) => None
  }

  /** With a session and a 2xx grades page, the call records one request
      and goes on with the hashed rows. */
  lemma FetchGradesPage(c: Config, env: Env, s: Sys, slug: string)
    requires Intranet.LoggedIn(s.session)
    requires 200 <= env.grades(s.fetches).statusCode < 300
    ensures Fetch(c, env, s, slug) ==
      Update(Emit(s.(fetches := s.fetches + 1), FetchGrades), HashGrades(env.grades(s.fetches).body, c.hash))
  {
    Intranet.PageFetchGuarded(s.session, PortalBase(c), Intranet.SessionHeaders(s.session),
                              Intranet.GradesPath(slug), env.grades(s.fetches), "your grades page");
  }

  /** The save file is rewritten with all fetched grades exactly when some
      are new, and the call pushes one field per new grade. */
  lemma UpdateWritesIffNew(s: Sys, graded: seq<HashedGrade>)
    requires SavedBefore(s.save).Some?
    ensures var (r, s') := Update(s, graded);
      var news := NewGrades(graded, SavedBefore(s.save).value);
      && r == Ok(GradeFields(news))
      && (|news| > 0 ==> s'.save == Some(Snapshot(graded))
                         && s'.trace[|s'.trace| - 1] == WriteSave(Snapshot(graded)))
      && (|news| == 0 ==> s'.save == Some(Snapshot(SavedBefore(s.save).value))
                          && s'.trace[|s'.trace| - 1] == ReadSave)
  {
  }

  /** Without a save file, the file is created holding `[]` before it is
      read, and every grade is new. */
  lemma {:induction false} UpdateFirstRun(s: Sys, graded: seq<HashedGrade>)
    requires s.save.None? && |graded| > 0
    ensures var (r, s') := Update(s, graded);
      && r == Ok(GradeFields(graded))
      && s'.save == Some(Snapshot(graded))
      && s'.trace == s.trace + [MakeDir, WriteSave(Snapshot([])), ReadSave, WriteSave(Snapshot(graded))]
  {
    NewGradesAgainstNothing(graded);
    assert s.trace + [MakeDir] + [WriteSave(Snapshot([]))] + [ReadSave] + [WriteSave(Snapshot(graded))]
        == s.trace + [MakeDir, WriteSave(Snapshot([])), ReadSave, WriteSave(Snapshot(graded))];
  }

  /** A successful grades request yields one field per new grade, and the
      save file is rewritten with all fetched grades exactly when some are
      new. */
  lemma FetchReportsNewGrades(c: Config, env: Env, s: Sys, slug: string)
    requires Intranet.LoggedIn(s.session)
    requires 200 <= env.grades(s.fetches).statusCode < 300
    requires SavedBefore(s.save).Some?
    ensures var (r, s') := Fetch(c, env, s, slug);
      var graded := HashGrades(env.grades(s.fetches).body, c.hash);
      var news := NewGrades(graded, SavedBefore(s.save).value);
      && r == Ok(GradeFields(news))
      && s'.fetches == s.fetches + 1
      && (|news| > 0 ==> s'.save == Some(Snapshot(graded))
                         && s'.trace[|s'.trace| - 1] == WriteSave(Snapshot(graded)))
      && (|news| == 0 ==> s'.save == Some(Snapshot(SavedBefore(s.save).value))
                          && s'.trace[|s'.trace| - 1] == ReadSave)
  {
    FetchGradesPage(c, env, s, slug);
    var s1 := Emit(s.(fetches := s.fetches + 1), FetchGrades);
    UpdateWritesIffNew(s1, HashGrades(env.grades(s.fetches).body, c.hash));
  }

  /** On the first run (no save file) every fetched grade is new, the file
      is created with `[]` first and then holds all of them. */
  lemma FetchFirstRun(c: Config, env: Env, s: Sys, slug: string)
    requires Intranet.LoggedIn(s.session) && s.save.None?
    requires 200 <= env.grades(s.fetches).statusCode < 300
    requires |env.grades(s.fetches).body| > 0
    ensures var (r, s') := Fetch(c, env, s, slug);
      var graded := HashGrades(env.grades(s.fetches).body, c.hash);
      && r == Ok(GradeFields(graded))
      && s'.save == Some(Snapshot(graded))
      && s'.trace == s.trace + [FetchGrades, MakeDir, WriteSave(Snapshot([])), ReadSave, WriteSave(Snapshot(graded))]
  {
    FetchGradesPage(c, env, s, slug);
    var graded := HashGrades(env.grades(s.fetches).body, c.hash);
    var s1 := Emit(s.(fetches := s.fetches + 1), FetchGrades);
    UpdateFirstRun(s1, graded);
    assert s1.trace + [MakeDir, WriteSave(Snapshot([])), ReadSave, WriteSave(Snapshot(graded))]
        == s.trace + [FetchGrades, MakeDir, WriteSave(Snapshot([])), ReadSave, WriteSave(Snapshot(graded))];
  }

  /** Without a session id nothing is requested and the call throws
      `IntranetNotLoggedInError`; a save file `JSON.parse` rejects makes it
      throw a `SyntaxError` and leaves the file alone. */
  lemma FetchFailures(c: Config, env: Env, s: Sys, slug: string)
    ensures !Intranet.LoggedIn(s.session) ==> Fetch(c, env, s, slug) == (Err(IntranetNotLoggedInError), s)
    ensures Intranet.LoggedIn(s.session) && 200 <= env.grades(s.fetches).statusCode < 300 && s.save.Some? && s.save.value.Unparsable? ==>
      Fetch(c, env, s, slug) == (Err(JsonSyntaxError(s.save.value.reason)),
                                 s.(fetches := s.fetches + 1, trace := s.trace + [FetchGrades, ReadSave]))
  {
    assert s.trace + [FetchGrades] + [ReadSave] == s.trace + [FetchGrades, ReadSave];
  }

  // ---------------------------------------------------------------------
  // run

  /** One webhook send. */
  function Deliver(env: Env, s: Sys, e: EmbedView): (SendOutcome, Sys) {
    (env.send(s.sends), Emit(s.(sends := s.sends + 1), Send(e)))
  }

  datatype CycleEnd = Slept | Resumed | Stopped | Exited

  /** The `catch` of a cycle for an error other than a lost session: report
      it on the embed; a failing report escapes to `process.exit(1)`. */
  function BadNews(c: Config, env: Env, s: Sys, e: EmbedView, error: Error): (CycleEnd, Sys) {
    var (sent, s1) := Deliver(env, s, BadNewsEmbed(e, error));
    if sent.Delivered? then (Slept, Emit(s1, Sleep(c.timeout))) else (Exited, Emit(s1, Exit(1)))
  }

  /** One pass of `while (true)`. */
  function Cycle(c: Config, env: Env, s: Sys, slug: string): (CycleEnd, Sys) {
    var (r, s1) := Fetch(c, env, s, slug);
    Handle(c, env, s1, r)
  }

  /** The rest of a pass once `fetchAndUpdateGrades` returned or threw. */
  function Handle(c: Config, env: Env, s: Sys, r: Result<seq<Field>, Error>): (CycleEnd, Sys) {
    if r.Ok? then
      var e := BaseEmbed.(fields := r.value);
      if |r.value| == 0 then (Slept, Emit(s, Sleep(c.timeout)))
      else
        var (sent, s1) := Deliver(env, s, e);
        if sent.Delivered? then (Slept, Emit(s1, Sleep(c.timeout)))
        else BadNews(c, env, s1, e, Foreign(sent.rendered))
    else if r.error.IntranetNotLoggedInError? then
      var (lr, s1) := Retry(c, env, s, 0);
      if lr.Ok? then (Resumed, s1) else (Stopped, s1)
    else BadNews(c, env, s, BaseEmbed, r.error)
  }

  datatype RunEnd = Running | Returned | Exit1

  /** `fuel` more passes of the loop. */
  function Loop(c: Config, env: Env, s: Sys, slug: string, fuel: nat): (RunEnd, Sys)
    decreases fuel
  {
    if fuel == 0 then (Running, s)
    else
      var (e, s1) := Cycle(c, env, s, slug);
      match e
      case Slept => Loop(c, env, s1, slug, fuel - 1)
      case Resumed => Loop(c, env, s1, slug, fuel - 1)
      case Stopped => (Returned, s1)
      case Exited => (Exit1, s1)
  }

  /** One pass of the loop, then the rest. */
  lemma LoopStep(c: Config, env: Env, s: Sys, slug: string, fuel: nat)
    requires fuel > 0
    ensures var (e, s1) := Cycle(c, env, s, slug);
      Loop(c, env, s, slug, fuel) ==
        if e == Stopped then (Returned, s1)
        else if e == Exited then (Exit1, s1)
        else Loop(c, env, s1, slug, fuel - 1)
  {
  }

  /** A pass that neither breaks nor exits leads to the next one. */
  lemma LoopAdvance(c: Config, env: Env, before: Sys, after: Sys, e: CycleEnd, slug: string, n: nat)
    requires Cycle(c, env, before, slug) == (e, after)
    requires e == Slept || e == Resumed
    ensures Loop(c, env, before, slug, n + 1) == Loop(c, env, after, slug, n)
  {
  }

  /** `run`, for at most `fuel` passes of its loop. */
  function RunSpec(c: Config, env: Env, s: Sys, fuel: nat): (RunEnd, Sys) {
    var (slug, s1) := Startup(c, env, s);
    if slug.None? then (Exit1, s1) else Loop(c, env, s1, slug.value, fuel)
  }

  /** The part of `run` before the loop: the login and the slug lookup;
      `None` is the critical failure, recorded as `Exit(1)`. */
  function Startup(c: Config, env: Env, s: Sys): (Option<string>, Sys) {
    var (lr, s1) := Retry(c, env, s, 0);
    if lr.Err? then (None, Emit(s1, Exit(1)))
    else
      var f := Intranet.PageFetch(s1.session, PortalBase(c), Intranet.SessionHeaders(s1.session),
                                  Intranet.ProfilePath, env.slug, "your profile page");
      var s2 := if |f.sent| > 0 then Emit(s1, FetchSlug) else s1;
      if f.result.Err? || f.result.value.None? || f.result.value.value == "" then (None, Emit(s2, Exit(1)))
      else (Some(f.result.value.value), s2)
  }

  /** Nothing but logins and the delays between them. */
  predicate OnlyLogins(t: seq<Action>) {
    forall i :: 0 <= i < |t| ==> t[i].LoginAttempt? || t[i].Delay?
  }

  lemma {:induction false} AttemptsTraceOnlyLogins(k: nat, delay: int)
    requires k >= 1
    ensures OnlyLogins(AttemptsTrace(k, delay))
    decreases k
  {
    if k > 1 {
      AttemptsTraceOnlyLogins(k - 1, delay);
      var t := AttemptsTrace(k - 1, delay);
      assert forall i :: 2 <= i < |t| + 2 ==> ([LoginAttempt, Delay(delay)] + t)[i] == t[i - 2];
    }
  }

  /** The retry loop only logs in and waits: it sends nothing, sleeps no
      `TIMEOUT` and touches no file. */
  lemma RetryOnlyLogins(c: Config, env: Env, s: Sys)
    ensures var s' := Retry(c, env, s, 0).1;
      && |s.trace| <= |s'.trace| && s'.trace[..|s.trace|] == s.trace
      && OnlyLogins(s'.trace[|s.trace|..])
      && s'.save == s.save && s'.sends == s.sends && s'.fetches == s.fetches
  {
    var s' := Retry(c, env, s, 0).1;
    if c.maxRetry > 0 {
      RetryBehaviour(c, env, s, 0);
      AttemptsTraceOnlyLogins(s'.logins - s.logins, c.loginRetryDelay);
      assert s'.trace[|s.trace|..] == AttemptsTrace(s'.logins - s.logins, c.loginRetryDelay);
    } else {
      assert s'.trace[|s.trace|..] == [];
    }
  }

  /** A lost session triggers one retry loop; after a successful re-login
      the cycle ends without the `TIMEOUT` sleep (the next fetch follows at
      once), after a failed one the loop is left. */
  lemma CycleRelogin(c: Config, env: Env, s: Sys, slug: string)
    requires Fetch(c, env, s, slug).0 == Err(IntranetNotLoggedInError)
    ensures var s1 := Fetch(c, env, s, slug).1;
      var (lr, s2) := Retry(c, env, s1, 0);
      && Cycle(c, env, s, slug) == (if lr.Ok? then Resumed else Stopped, s2)
      && |s1.trace| <= |s2.trace| && s2.trace[..|s1.trace|] == s1.trace
      && OnlyLogins(s2.trace[|s1.trace|..])
      && s2.sends == s1.sends
  {
    RetryOnlyLogins(c, env, Fetch(c, env, s, slug).1);
  }

  /** A cycle whose fetch succeeds sends the fresh `BASE_EMBED` copy with
      the new fields if there are any and nothing otherwise; a failing send
      is reported with the grade fields kept. */
  lemma CycleSendsNewGrades(c: Config, env: Env, s: Sys, slug: string)
    requires Fetch(c, env, s, slug).0.Ok?
    ensures var (r, s1) := Fetch(c, env, s, slug);
      var e := BaseEmbed.(fields := r.value);
      var s2 := Emit(s1.(sends := s1.sends + 1), Send(e));
      && (r.value == [] ==> Cycle(c, env, s, slug) == (Slept, Emit(s1, Sleep(c.timeout))))
      && (r.value != [] && env.send(s1.sends).Delivered? ==>
            Cycle(c, env, s, slug) == (Slept, Emit(s2, Sleep(c.timeout))))
      && (r.value != [] && env.send(s1.sends).Failed? ==>
            Cycle(c, env, s, slug) == BadNews(c, env, s2, e, Foreign(env.send(s1.sends).rendered)))
  {
  }

  /** Any other error is reported on the cycle's embed as "Bad news!" with
      an `Error` field; after a delivered report the cycle sleeps `TIMEOUT`,
      a failing report ends the process with exit code 1. */
  lemma CycleReportsErrors(c: Config, env: Env, s: Sys, slug: string)
    requires Fetch(c, env, s, slug).0.Err?
    requires !Fetch(c, env, s, slug).0.error.IntranetNotLoggedInError?
    ensures var (r, s1) := Fetch(c, env, s, slug);
      var report := EmbedView(BadNewsTitle, BadNewsColor, ThumbnailUrl,
                              [Field("Error", Plain(r.error.ToString()))], FooterText);
      var s2 := Emit(s1.(sends := s1.sends + 1), Send(report));
      && (env.send(s1.sends).Delivered? ==> Cycle(c, env, s, slug) == (Slept, Emit(s2, Sleep(c.timeout))))
      && (env.send(s1.sends).Failed? ==> Cycle(c, env, s, slug) == (Exited, Emit(s2, Exit(1))))
  {
    var error := Fetch(c, env, s, slug).0.error;
    assert [] + [Field("Error", Plain(error.ToString()))] == [Field("Error", Plain(error.ToString()))];
  }

  /** A report keeps the fields already pushed and puts the error last. */
  lemma BadNewsKeepsFields(c: Config, env: Env, s: Sys, e: EmbedView, error: Error)
    ensures var t := BadNews(c, env, s, e, error).1.trace;
      && |t| == |s.trace| + 2
      && t[|s.trace|] == Send(BadNewsEmbed(e, error))
      && t[|s.trace|].embed.fields[..|e.fields|] == e.fields
      && t[|s.trace|].embed.fields[|e.fields|] == Field("Error", Plain(error.ToString()))
      && (BadNews(c, env, s, e, error).0 == Slept <==> env.send(s.sends).Delivered?)
      && t[|s.trace| + 1] == if env.send(s.sends).Delivered? then Sleep(c.timeout) else Exit(1)
  {
  }

  /** A failed initial login is a critical failure. */
  lemma RunLoginFailure(c: Config, env: Env, s: Sys, fuel: nat)
    requires Retry(c, env, s, 0).0.Err?
    ensures RunSpec(c, env, s, fuel) == (Exit1, Emit(Retry(c, env, s, 0).1, Exit(1)))
  {
  }

  /** A missing or empty slug is a critical failure, and so is a slug
      lookup that throws. */
  lemma RunWithoutSlug(c: Config, env: Env, s: Sys, fuel: nat)
    requires Retry(c, env, s, 0).0.Ok?
    requires var s1 := Retry(c, env, s, 0).1;
      var f := Intranet.PageFetch(s1.session, PortalBase(c), Intranet.SessionHeaders(s1.session),
                                  Intranet.ProfilePath, env.slug, "your profile page");
      f.result.Err? || f.result.value.None? || f.result.value.value == ""
    ensures var (end, s') := RunSpec(c, env, s, fuel);
      end == Exit1 && s'.trace[|s'.trace| - 1] == Exit(1)
  {
  }

  /** With `MAX_RETRY` at most 0 and no session, `run` makes no request at
      all: the slug lookup throws `IntranetNotLoggedInError` and the process
      exits with code 1. */
  lemma RunWithoutAttempts(c: Config, env: Env, s: Sys, fuel: nat)
    requires c.maxRetry <= 0 && !Intranet.LoggedIn(s.session)
    ensures RunSpec(c, env, s, fuel) == (Exit1, Emit(s, Exit(1)))
  {
    RetryNoAttempts(c, env, s);
  }

  // ---------------------------------------------------------------------
  // The client object

  /** `TrackerClient`: the portal client it owns, the save file, the
      positions reached in the world's answers, and the trace. */
  class TrackerClient {
    const config: Config
    const intranet: Intranet.IntranetClient
    var save: Option<SaveContent>
    var logins: nat
    var fetches: nat
    var sends: nat
    var trace: seq<Action>

    /** The portal client is configured from the same settings. */
    predicate Valid()
      reads intranet, intranet.http, intranet.cas.http
    {
      && intranet.Valid()
      && intranet.url == config.serviceUrl
      && intranet.casPath == config.casPath
      && intranet.cas.http.url == config.casUrl
    }

    function State(): Sys
      reads this, intranet
    {
      Sys(intranet.PHPSESSID, save, logins, fetches, sends, trace)
    }

    /** `new IntranetClient()` starts without a session id; `save` is the
        save file as it is on disk. */
    constructor(config: Config, save: Option<SaveContent>)
      ensures Valid() && this.config == config
      ensures State() == Sys(None, save, 0, 0, 0, [])
      ensures fresh(intranet) && fresh(intranet.http) && fresh(intranet.cas.http)
    {
      this.config := config;
      intranet := new Intranet.IntranetClient(config.serviceUrl, config.casPath, config.casUrl, None);
      this.save := save;
      logins := 0;
      fetches := 0;
      sends := 0;
      trace := [];
    }

    /** `loginWithRetries` */
    method LoginWithRetries(w: World, ghost env: Env) returns (r: Result<(), Error>)
      requires Observes(config, env, w)
      requires Valid()
      modifies this, intranet, intranet.http
      ensures Valid()
      ensures (r, State()) == Retry(config, env, old(State()), 0)
    {
      var attempts := 0;
      while attempts < config.maxRetry
        invariant Valid()
        invariant Retry(config, env, old(State()), 0) == Retry(config, env, State(), attempts)
        decreases config.maxRetry - attempts
      {
        ghost var before := State();
        var ok := AttemptOnce(w, env);
        RetryStep(config, env, before, attempts);
        if ok {
          return Ok(());
        }
        attempts := attempts + 1;
        if attempts >= config.maxRetry {
          return Err(PlainError(MaxAttemptsMessage));
        }
        trace := trace + [Delay(config.loginRetryDelay)];
      }
      r := Ok(());
    }

    /** One `intranetClient.login` inside the retry loop. */
    method AttemptOnce(w: World, ghost env: Env) returns (ok: bool)
      requires Observes(config, env, w)
      requires Valid()
      modifies this, intranet, intranet.http
      ensures Valid()
      ensures (ok, State()) == Attempt(env, old(State()))
    {
      var result := PortalLogin(w, env);
      logins := logins + 1;
      trace := trace + [LoginAttempt];
      ok := result.Ok?;
    }

    /** `intranetClient.login` against the world's answers for this attempt. */
    method PortalLogin(w: World, ghost env: Env) returns (result: Result<string, Error>)
      requires Observes(config, env, w)
      requires Valid()
      modifies intranet, intranet.http
      ensures Valid()
      ensures result == env.login(logins)
      ensures intranet.PHPSESSID == if result.Ok? then Some(result.value) else old(intranet.PHPSESSID)
    {
      var f := intranet.Login(config.username, config.password, config.userAgent, w.login(logins));
      result := f.result;
      assert result == LoginResult(config, w, logins);
    }

    /** `fetchAndUpdateGrades`: pushes one field per new grade onto `embed`
        and rewrites the save file when there are any. */
    method FetchAndUpdateGrades(slug: string, embed: Embed, w: World, ghost env: Env) returns (r: Result<(), Error>)
      requires SameAnswers(env, w)
      requires Valid()
      modifies this, embed
      ensures Valid()
      ensures var (spec, s') := Fetch(config, env, old(State()), slug);
        && State() == s'
        && (spec.Ok? ==> r.Ok? && embed.View() == old(embed.View()).(fields := old(embed.fields) + spec.value))
        && (spec.Err? ==> r == Err(spec.error) && embed.View() == old(embed.View()))
    {
      ghost var s0 := State();
      var f := intranet.GetGrades(slug, w.grades(fetches));
      if |f.sent| > 0 {
        fetches := fetches + 1;
        trace := trace + [FetchGrades];
      }
      ghost var s1 := if |f.sent| > 0 then Emit(s0.(fetches := s0.fetches + 1), FetchGrades) else s0;
      assert State() == s1;
      if f.result.Err? {
        return Err(f.result.error);
      }
      var graded := HashGrades(f.result.value, config.hash);
      assert Fetch(config, env, s0, slug) == Update(s1, graded);
      r := UpdateSave(graded, embed);
    }

    /** The save file part of `fetchAndUpdateGrades`. */
    method UpdateSave(graded: seq<HashedGrade>, embed: Embed) returns (r: Result<(), Error>)
      modifies this, embed
      ensures var (spec, s') := Update(old(State()), graded);
        && State() == s'
        && (spec.Ok? ==> r.Ok? && embed.View() == old(embed.View()).(fields := old(embed.fields) + spec.value))
        && (spec.Err? ==> r == Err(spec.error) && embed.View() == old(embed.View()))
    {
      if save.None? {
        trace := trace + [MakeDir];
        trace := trace + [WriteSave(Snapshot([]))];
        save := Some(Snapshot([]));
      }
      trace := trace + [ReadSave];
      match save.value {
        case Unparsable(reason) =>
          return Err(JsonSyntaxError(reason));
        case Snapshot(saved) =>
          var news := NewGrades(graded, saved);
          if |news| > 0 {
            PushFields(embed, news);
            save := Some(Snapshot(graded));
            trace := trace + [WriteSave(Snapshot(graded))];
          }
          r := Ok(());
      }
    }

    /** The `for (const grade of newGrades)` loop. */
    static method PushFields(embed: Embed, news: seq<HashedGrade>)
      modifies embed
      ensures embed.View() == old(embed.View()).(fields := old(embed.fields) + GradeFields(news))
    {
      for i := 0 to |news|
        invariant embed.View() == old(embed.View()).(fields := old(embed.fields) + GradeFields(news[..i]))
      {
        var grade := news[i].grade;
        var name := grade.subject.short;
        if grade.subject.full.Some? && grade.subject.full.value != "" {
          name := name + " | " + grade.subject.full.value;
        }
        embed.Push(Field(name, GradeSummary(grade.evaluation, grade.date, grade.grade, grade.coefficient)));
        GradeFieldsSnoc(news, i);
      }
      assert news[..|news|] == news;
    }

    /** One pass of `run`'s loop, from `structuredClone(BASE_EMBED)` to
        `delay(TIMEOUT)`; a successful re-login skips the delay
        (`continue`), a failed one leaves the loop (`break`). */
    method RunCycle(slug: string, w: World, ghost env: Env) returns (end: CycleEnd)
      requires Observes(config, env, w)
      requires Valid()
      modifies this, intranet, intranet.http
      ensures Valid()
      ensures (end, State()) == Cycle(config, env, old(State()), slug)
    {
      var embed := new Embed.FromBase();
      var r := FetchAndUpdateGrades(slug, embed, w, env);
      assert embed.View() == BaseEmbed.(fields := embed.fields);
      ghost var spec := Fetch(config, env, old(State()), slug).0;
      assert Cycle(config, env, old(State()), slug) == Handle(config, env, State(), spec);
      end := Respond(embed, r, spec, w, env);
    }

    /** What the pass does with the outcome of `fetchAndUpdateGrades`. */
    method Respond(embed: Embed, r: Result<(), Error>, ghost spec: Result<seq<Field>, Error>, w: World, ghost env: Env)
      returns (end: CycleEnd)
      requires Observes(config, env, w)
      requires Valid()
      requires spec.Ok? ==> r.Ok? && embed.View() == BaseEmbed.(fields := spec.value)
      requires spec.Err? ==> r == Err(spec.error) && embed.View() == BaseEmbed
      modifies this, intranet, intranet.http, embed
      ensures Valid()
      ensures (end, State()) == Handle(config, env, old(State()), spec)
    {
      if r.Ok? {
        if |embed.fields| > 0 {
          var sent := w.send(sends);
          sends := sends + 1;
          trace := trace + [Send(embed.View())];
          if sent.Failed? {
            end := Report(embed, Foreign(sent.rendered), w, env);
            return;
          }
        }
      } else if r.error.IntranetNotLoggedInError? {
        var again := LoginWithRetries(w, env);
        return if again.Ok? then Resumed else Stopped;
      } else {
        end := Report(embed, r.error, w, env);
        return;
      }
      trace := trace + [Sleep(config.timeout)];
      end := Slept;
    }

    /** The `catch` branch for any other error: retitle, recolour, append
        the `Error` field and send; a failing send is the critical failure
        of `run`. */
    method Report(embed: Embed, error: Error, w: World, ghost env: Env) returns (end: CycleEnd)
      requires SameAnswers(env, w)
      modifies this, embed
      ensures (end, State()) == BadNews(config, env, old(State()), old(embed.View()), error)
    {
      embed.title := BadNewsTitle;
      embed.color := BadNewsColor;
      embed.Push(Field("Error", Plain(error.ToString())));
      var sent := w.send(sends);
      sends := sends + 1;
      trace := trace + [Send(embed.View())];
      if sent.Failed? {
        trace := trace + [Exit(1)];
        return Exited;
      }
      trace := trace + [Sleep(config.timeout)];
      end := Slept;
    }

    /** The start of `run`: log in, then look up the slug; a failure of
        either ends the process with code 1. */
    method Start(w: World, ghost env: Env) returns (slug: Option<string>)
      requires Observes(config, env, w)
      requires Valid()
      modifies this, intranet, intranet.http
      ensures Valid()
      ensures (slug, State()) == Startup(config, env, old(State()))
    {
      var login := LoginWithRetries(w, env);
      if login.Err? {
        trace := trace + [Exit(1)];
        return None;
      }
      var f := intranet.GetMySlug(w.slug);
      if |f.sent| > 0 {
        trace := trace + [FetchSlug];
      }
      if f.result.Err? || f.result.value.None? || f.result.value.value == "" {
        trace := trace + [Exit(1)];
        return None;
      }
      slug := f.result.value;
    }

    /** `run`, for at most `fuel` passes of `while (true)`. */
    method Run(w: World, ghost env: Env, fuel: nat) returns (end: RunEnd)
      requires Observes(config, env, w)
      requires Valid()
      modifies this, intranet, intranet.http
      ensures Valid()
      ensures (end, State()) == RunSpec(config, env, old(State()), fuel)
    {
      var slug := Start(w, env);
      if slug.None? {
        return Exit1;
      }
      end := Poll(slug.value, w, env, fuel);
    }

    /** `while (true)`, for at most `fuel` passes. */
    method Poll(slug: string, w: World, ghost env: Env, fuel: nat) returns (end: RunEnd)
      requires Observes(config, env, w)
      requires Valid()
      modifies this, intranet, intranet.http
      ensures Valid()
      ensures (end, State()) == Loop(config, env, old(State()), slug, fuel)
    {
      ghost var start := State();
      ghost var target := Loop(config, env, start, slug, fuel);
      var remaining := fuel;
      while remaining > 0
        invariant Valid()
        invariant Loop(config, env, State(), slug, remaining) == target
      {
        ghost var before := State();
        var e := RunCycle(slug, w, env);
        if e == Stopped {
          LoopStep(config, env, before, slug, remaining);
          // `break`: nothing follows the loop, so `run` returns
          return Returned;
        } else if e == Exited {
          LoopStep(config, env, before, slug, remaining);
          return Exit1;
        }
        remaining := remaining - 1;
        LoopAdvance(config, env, before, State(), e, slug, remaining);
      }
      end := Running;
    }
  }
}
