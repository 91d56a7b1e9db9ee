/**
 * `main` of dw-downloader.py: validate the arguments, load the session
 * cookies, fetch the export page, fill in and coerce its form, post it,
 * and save the response when it is an XML export.
 *
 * Exit codes: 2 for bad arguments, 3 when the export page is a login
 * redirect or not a 200, 4 when the posted form does not come back as
 * XML, 0 when the export is saved. An exception that escapes `main` ends
 * the interpreter with status 1.
 */
module ExportSession {

  import opened Wrappers
  import opened Paths
  import opened Text
  import opened Cookies
  import opened Transport
  import opened Classifier
  import opened Forms

  /**
   * The parsed command line. `--cookie-file` and `--cookie-header` are ""
   * when absent: `main` only tests them for truth.
   */
  datatype Args = Args(year: int, month: int, cookieFile: string, cookieHeader: string,
                       journal: string, outdir: string)

  /** What the session sends: the URL, its cookie jar and, for a POST, the form data. */
  datatype Request = Get(url: string, cookies: Jar) | Post(url: string, cookies: Jar, data: map<string, string>)

  /**
   * What `main` cannot see: the cookie files on disk (path to lines), the
   * server (request to the outcome of the n-th attempt), BeautifulSoup's
   * `find_all("form")` on a page, and `urljoin`.
   */
  datatype World = World(cookieFiles: map<string, seq<string>>, net: Request -> nat -> Attempt,
                         parseForms: string -> seq<Form>, urljoin: (string, string) -> string)

  const Base: string := "https://www.dreamwidth.org"

  /** A missing `action` attribute posts to "/export". */
  const DefaultAction: string := "/export"

  function ExportUrl(journal: string): string {
    Base + "/export" + if journal != "" then "?journal=" + journal else ""
  }

  /** `dw_export_{journal or "default"}_{year:04d}-{month:02d}.xml`. */
  function OutputFileName(journal: string, year: int, month: int): string {
    "dw_export_" + (if journal != "" then journal else "default") + "_" + FormatInt(year, 4) + "-" + FormatInt(month, 2) + ".xml"
  }

  function OutputPath(args: Args): Path {
    [args.outdir, OutputFileName(args.journal, args.year, args.month)]
  }

  /** `s.lstrip("/")`. */
  function LStripSlashes(s: string): string {
    if s != [] && s[0] == '/' then LStripSlashes(s[1..]) else s
  }

  /** `lstrip("/")` removes the leading slashes and nothing else. */
  lemma {:induction false} LStripSlashesShape(s: string)
    ensures var r := LStripSlashes(s);
            |r| <= |s| && r == s[|s| - |r|..] && (r == [] || r[0] != '/')
            && forall i :: 0 <= i < |s| - |r| ==> s[i] == '/'
  {
    if s != [] && s[0] == '/' {
      LStripSlashesShape(s[1..]);
    }
  }

  /** `urljoin(base + "/", action.lstrip("/"))`. */
  function PostUrl(world: World, form: Form): string {
    world.urljoin(Base + "/", LStripSlashes(form.action.GetOr(DefaultAction)))
  }

  /** A form without an action posts to `urljoin(base + "/", "export")`. */
  lemma PostUrlWithoutAction(world: World, form: Form)
    requires form.action.None?
    ensures PostUrl(world, form) == world.urljoin(Base + "/", "export")
  {
    assert DefaultAction[0] == '/' && DefaultAction[1..] == "export";
    assert LStripSlashes("export") == "export";
  }

  /** Why `main` raised. */
  datatype Crash = CookieLoad(cookieError: CookieError) | RequestFailed(attempts: nat) | FormMissing(formError: FormError)

  datatype Status = Exit(code: int) | Raised(crash: Crash)

  /** The process status: an uncaught exception exits with 1. */
  function ExitCode(s: Status): int {
    match s
    case Exit(c) => c
    case Raised(_) => 1
  }

  /**
   * One run: its status, how many `jitter_sleep` pauses it took, the stage
   * name of the debug artifacts it wrote, the POST it sent, and the file
   * it saved with its text.
   */
  datatype Outcome = Outcome(status: Status, pauses: nat, debugStage: Option<string>,
                             posted: Option<(string, map<string, string>)>, saved: Option<(Path, string)>)

  /** The cookie file when one is named, else the Cookie header. */
  function SessionCookies(args: Args, world: World): Result<Jar, CookieError> {
    if args.cookieFile != "" then
      FileCookies(if args.cookieFile in world.cookieFiles then Some(world.cookieFiles[args.cookieFile]) else None,
                  DefaultDomain)
    else Success(HeaderJar(args.cookieHeader))
  }

  /** The form payload with the year and the month written into the guessed fields. */
  function Overridden(args: Args, form: Form): map<string, string> {
    var fields := GuessedFieldNames(form);
    FormPayload(form)[fields.0 := IntToString(args.year)][fields.1 := IntToString(args.month)]
  }

  /** What is posted: the overridden payload after the XML coercion. */
  function PostedPayload(args: Args, form: Form): map<string, string> {
    ForcedXml(form, Overridden(args, form)).1
  }

  /** After the export page came back: choose the form, post it, classify the answer. */
  function ExportFromPage(args: Args, world: World, jar: Jar, page: Response): Outcome {
    match ChooseExportForm(world.parseForms(page.body))
    case Failure(e) => Outcome(Raised(FormMissing(e)), 1, Some("get_export_parsefail"), None, None)
    case Success(form) =>
      var post := (PostUrl(world, form), PostedPayload(args, form));
      match Retry(world.net(Post(post.0, jar, post.1)), DefaultMaxRetries)
      case Exhausted(n) => Outcome(Raised(RequestFailed(n)), 1, None, Some(post), None)
      case Delivered(pr, _) =>
        if !LooksLikeXmlExport(pr) then Outcome(Exit(4), 2, Some("post_export_notxml"), Some(post), None)
        else Outcome(Exit(0), 2, None, Some(post), Some((OutputPath(args), pr.body)))
  }

  /** Specification of `main`. */
  function Export(args: Args, world: World): Outcome {
    if !(1 <= args.month <= 12) then Outcome(Exit(2), 0, None, None, None)
    else if args.cookieFile == "" && args.cookieHeader == "" then Outcome(Exit(2), 0, None, None, None)
    else
      match SessionCookies(args, world)
      case Failure(e) => Outcome(Raised(CookieLoad(e)), 0, None, None, None)
      case Success(jar) =>
        match Retry(world.net(Get(ExportUrl(args.journal), jar)), DefaultMaxRetries)
        case Exhausted(n) => Outcome(Raised(RequestFailed(n)), 0, None, None, None)
        case Delivered(r, _) =>
          if RedirectedToLogin(r.finalUrl) then Outcome(Exit(3), 1, Some("get_export_redirect"), None, None)
          else if r.status != 200 then Outcome(Exit(3), 1, Some("get_export_badstatus"), None, None)
          else ExportFromPage(args, world, jar, r)
  }

  /** `main`, step by step. */
  method RunExport(args: Args, world: World) returns (outcome: Outcome)
    ensures outcome == Export(args, world)
  {
    if !(1 <= args.month <= 12) {
      return Outcome(Exit(2), 0, None, None, None);
    }
    if args.cookieFile == "" && args.cookieHeader == "" {
      return Outcome(Exit(2), 0, None, None, None);
    }
    var jar: Jar;
    if args.cookieFile != "" {
      var file := if args.cookieFile in world.cookieFiles then Some(world.cookieFiles[args.cookieFile]) else None;
      var loaded := LoadNetscapeCookieFile(file, DefaultDomain);
      if loaded.Failure? {
        return Outcome(Raised(CookieLoad(loaded.error)), 0, None, None, None);
      }
      jar := loaded.value;
    } else {
      jar := ParseCookieHeader(args.cookieHeader);
    }
    assert SessionCookies(args, world) == Success(jar);

    var exportUrl := Base + "/export";
    if args.journal != "" {
      exportUrl := exportUrl + "?journal=" + args.journal;
    }
    assert exportUrl == ExportUrl(args.journal);
    var got, _ := RequestWithRetries(world.net(Get(exportUrl, jar)), DefaultMaxRetries);
    if got.Exhausted? {
      return Outcome(Raised(RequestFailed(got.attempts)), 0, None, None, None);
    }
    var pauses := 1;
    var r := got.response;
    if Contains(r.finalUrl, "returnto=/export") || Contains(Lower(r.finalUrl), "login") {
      return Outcome(Exit(3), pauses, Some("get_export_redirect"), None, None);
    }
    if r.status != 200 {
      return Outcome(Exit(3), pauses, Some("get_export_badstatus"), None, None);
    }
    assert Export(args, world) == ExportFromPage(args, world, jar, r);

    var chosen := ChooseExportForm(world.parseForms(r.body));
    if chosen.Failure? {
      return Outcome(Raised(FormMissing(chosen.error)), pauses, Some("get_export_parsefail"), None, None);
    }
    var form := chosen.value;
    var action := form.action.GetOr("/export");
    var payload := BuildFormPayload(form);
    var yearField, monthField := GuessYearMonthFieldNames(form);
    payload := payload[yearField := IntToString(args.year)];
    payload := payload[monthField := IntToString(args.month)];
    var _, coerced := ForceOutputFormatXml(form, payload);
    payload := coerced;
    assert payload == PostedPayload(args, form);

    var postUrl := world.urljoin(Base + "/", LStripSlashes(action));
    assert postUrl == PostUrl(world, form);
    var sent, _ := RequestWithRetries(world.net(Post(postUrl, jar, payload)), DefaultMaxRetries);
    if sent.Exhausted? {
      return Outcome(Raised(RequestFailed(sent.attempts)), pauses, None, Some((postUrl, payload)), None);
    }
    pauses := pauses + 1;
    var pr := sent.response;
    if !LooksLikeXmlExport(pr) {
      return Outcome(Exit(4), pauses, Some("post_export_notxml"), Some((postUrl, payload)), None);
    }
    var out := [args.outdir, OutputFileName(args.journal, args.year, args.month)];
    return Outcome(Exit(0), pauses, None, Some((postUrl, payload)), Some((out, pr.body)));
  }

  // ---------------------------------------------------------------- properties of main

  /** Only the documented codes occur, plus 1 for an escaped exception. */
  lemma ExitCodes(args: Args, world: World)
    ensures ExitCode(Export(args, world).status) in {0, 1, 2, 3, 4}
  {
    if 1 <= args.month <= 12 && (args.cookieFile != "" || args.cookieHeader != "") && SessionCookies(args, world).Success? {
      var jar := SessionCookies(args, world).value;
      var got := Retry(world.net(Get(ExportUrl(args.journal), jar)), DefaultMaxRetries);
      if got.Delivered? && !RedirectedToLogin(got.response.finalUrl) && got.response.status == 200 {
        assert Export(args, world) == ExportFromPage(args, world, jar, got.response);
        FromPageShape(args, world, jar, got.response);
      }
    }
  }

  /** Code 2 exactly for a month outside 1..12 or no credentials; nothing is requested then. */
  lemma ArgumentErrors(args: Args, world: World)
    ensures Export(args, world).status == Exit(2)
            <==> !(1 <= args.month <= 12) || (args.cookieFile == "" && args.cookieHeader == "")
    ensures Export(args, world).status == Exit(2) ==> Export(args, world).pauses == 0 && Export(args, world).posted.None?
  {
    if 1 <= args.month <= 12 && (args.cookieFile != "" || args.cookieHeader != "") && SessionCookies(args, world).Success? {
      var jar := SessionCookies(args, world).value;
      var got := Retry(world.net(Get(ExportUrl(args.journal), jar)), DefaultMaxRetries);
      if got.Delivered? && !RedirectedToLogin(got.response.finalUrl) && got.response.status == 200 {
        assert Export(args, world) == ExportFromPage(args, world, jar, got.response);
        FromPageShape(args, world, jar, got.response);
      }
    }
  }

  /** With both credentials the cookie file is used and the header plays no part. */
  lemma CookieFileWins(args: Args, world: World, header: string)
    requires args.cookieFile != ""
    ensures Export(args, world) == Export(args.(cookieHeader := header), world)
  {
  }

  /** A login redirect gives 3 whatever the page's status, and nothing is posted. */
  lemma LoginRedirectGivesThree(args: Args, world: World, jar: Jar, page: Response, n: nat)
    requires 1 <= args.month <= 12 && (args.cookieFile != "" || args.cookieHeader != "")
    requires SessionCookies(args, world) == Success(jar)
    requires Retry(world.net(Get(ExportUrl(args.journal), jar)), DefaultMaxRetries) == Delivered(page, n)
    requires Contains(page.finalUrl, "returnto=/export") || Contains(Lower(page.finalUrl), "login")
    ensures Export(args, world).status == Exit(3) && Export(args, world).posted.None?
  {
  }

  /** A page that is not a login redirect but whose status is not 200 gives 3; nothing is posted or saved. */
  lemma BadStatusGivesThree(args: Args, world: World, jar: Jar, page: Response, n: nat)
    requires 1 <= args.month <= 12 && (args.cookieFile != "" || args.cookieHeader != "")
    requires SessionCookies(args, world) == Success(jar)
    requires Retry(world.net(Get(ExportUrl(args.journal), jar)), DefaultMaxRetries) == Delivered(page, n)
    requires !RedirectedToLogin(page.finalUrl) && page.status != 200
    ensures Export(args, world).status == Exit(3)
    ensures Export(args, world).posted.None? && Export(args, world).saved.None?
    ensures Export(args, world).debugStage == Some("get_export_badstatus")
  {
  }

  /**
   * Once the page is accepted and the chosen form's POST is answered, the
   * answer decides: 0 with its body saved when it looks like an XML export,
   * otherwise 4 with nothing saved.
   */
  lemma AnsweredPostDecides(args: Args, world: World, jar: Jar, page: Response, n: nat,
                            form: Form, answer: Response, m: nat)
    requires 1 <= args.month <= 12 && (args.cookieFile != "" || args.cookieHeader != "")
    requires SessionCookies(args, world) == Success(jar)
    requires Retry(world.net(Get(ExportUrl(args.journal), jar)), DefaultMaxRetries) == Delivered(page, n)
    requires !RedirectedToLogin(page.finalUrl) && page.status == 200
    requires ChooseExportForm(world.parseForms(page.body)) == Success(form)
    requires Retry(world.net(Post(PostUrl(world, form), jar, PostedPayload(args, form))), DefaultMaxRetries) == Delivered(answer, m)
    ensures Export(args, world).posted == Some((PostUrl(world, form), PostedPayload(args, form)))
    ensures Export(args, world).status == Exit(4) <==> !LooksLikeXmlExport(answer)
    ensures Export(args, world).status == Exit(0) <==> LooksLikeXmlExport(answer)
    ensures LooksLikeXmlExport(answer) ==> Export(args, world).saved == Some((OutputPath(args), answer.body))
    ensures !LooksLikeXmlExport(answer) ==>
              Export(args, world).saved.None? && Export(args, world).debugStage == Some("post_export_notxml")
  {
    assert Export(args, world) == ExportFromPage(args, world, jar, page);
  }

  /** Exit 0 means: the page was a 200 that is not a login, and the posted answer looked like XML and was saved. */
  lemma SuccessMeansSaved(args: Args, world: World)
    requires Export(args, world).status == Exit(0)
    ensures SessionCookies(args, world).Success?
    ensures var jar := SessionCookies(args, world).value;
            var got := Retry(world.net(Get(ExportUrl(args.journal), jar)), DefaultMaxRetries);
            got.Delivered? && got.response.status == 200 && !RedirectedToLogin(got.response.finalUrl)
    ensures var post := Export(args, world).posted;
            var jar := SessionCookies(args, world).value;
            post.Some?
            && var sent := Retry(world.net(Post(post.value.0, jar, post.value.1)), DefaultMaxRetries);
               sent.Delivered? && LooksLikeXmlExport(sent.response)
               && Export(args, world).saved == Some((OutputPath(args), sent.response.body))
  {
  }

  /** Exit 4 means a form was posted and nothing was saved; a file is saved exactly on exit 0. */
  lemma NotXmlGivesFour(args: Args, world: World)
    ensures Export(args, world).status == Exit(4) ==> Export(args, world).saved.None? && Export(args, world).posted.Some?
    ensures Export(args, world).saved.Some? <==> Export(args, world).status == Exit(0)
  {
    if 1 <= args.month <= 12 && (args.cookieFile != "" || args.cookieHeader != "") && SessionCookies(args, world).Success? {
      var jar := SessionCookies(args, world).value;
      var got := Retry(world.net(Get(ExportUrl(args.journal), jar)), DefaultMaxRetries);
      if got.Delivered? && !RedirectedToLogin(got.response.finalUrl) && got.response.status == 200 {
        assert Export(args, world) == ExportFromPage(args, world, jar, got.response);
        FromPageShape(args, world, jar, got.response);
      }
    }
  }

  /** What can come of the export page: an escaped exception with one pause, or an answered POST with two. */
  lemma FromPageShape(args: Args, world: World, jar: Jar, page: Response)
    ensures var o := ExportFromPage(args, world, jar, page);
            && (o.status.Exit? ==> o.status.code in {0, 4})
            && 1 <= o.pauses <= 2
            && (o.pauses == 2 <==> o.status in {Exit(0), Exit(4)})
            && (o.status == Exit(4) ==> o.saved.None? && o.posted.Some?)
            && (o.saved.Some? <==> o.status == Exit(0))
  {
  }

  /** `jitter_sleep` follows each request that returned: two pauses exactly when the POST was answered. */
  lemma PausesFollowRequests(args: Args, world: World)
    ensures Export(args, world).pauses <= 2
    ensures Export(args, world).pauses == 2 <==> Export(args, world).status in {Exit(0), Exit(4)}
    ensures Export(args, world).posted.Some? ==> Export(args, world).pauses >= 1
  {
    if 1 <= args.month <= 12 && (args.cookieFile != "" || args.cookieHeader != "") && SessionCookies(args, world).Success? {
      var jar := SessionCookies(args, world).value;
      var got := Retry(world.net(Get(ExportUrl(args.journal), jar)), DefaultMaxRetries);
      if got.Delivered? && !RedirectedToLogin(got.response.finalUrl) && got.response.status == 200 {
        assert Export(args, world) == ExportFromPage(args, world, jar, got.response);
        FromPageShape(args, world, jar, got.response);
      }
    }
  }

  /** Both guessed fields hold the requested values before the coercion runs. */
  lemma OverridesWritten(args: Args, form: Form)
    ensures var fields := GuessedFieldNames(form);
            Overridden(args, form)[fields.1] == IntToString(args.month)
            && Overridden(args, form)[fields.0] == IntToString(if fields.0 == fields.1 then args.month else args.year)
  {
  }

  /** The coercion runs on the overridden payload and changes at most one of its fields. */
  lemma CoercionAfterOverrides(args: Args, form: Form)
    ensures ForcedXml(form, Overridden(args, form)).0 ==>
              exists name :: name != "" && name in PostedPayload(args, form)
                             && PostedPayload(args, form) == Overridden(args, form)[name := PostedPayload(args, form)[name]]
    ensures !ForcedXml(form, Overridden(args, form)).0 ==> PostedPayload(args, form) == Overridden(args, form)
  {
    var p := Overridden(args, form);
    ForcedXmlChangesOneField(form, p);
    var q := ForcedXml(form, p);
    assert PostedPayload(args, form) == q.1;
    if q.0 {
      var name :| name != "" && name in q.1 && q.1 == p[name := q.1[name]];
      assert name != "" && name in PostedPayload(args, form)
             && PostedPayload(args, form) == Overridden(args, form)[name := PostedPayload(args, form)[name]];
    }
  }
}
