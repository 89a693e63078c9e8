/** The note-publishing script of the xiaohongshu-creator skill: browser and
    profile resolution, the launch-failure classification, the cookie login
    test, the 100-poll login wait, the selector cascades for the title and
    body fields, the choice of the submit button, the outcome of a publish
    run, the status command and the command-line dispatch.

    The browser is replaced by what it would have shown: the cookies it
    returns, which selectors resolve within their timeout, which buttons
    match, and whether the open context could be launched. What the script
    does to the browser is recorded as a sequence of `Action`s. */
module Publish {
  import opened Strings
  import opened Cascade

  // ---------------------------------------------------------------------
  // Browser and profile resolution

  /** The three environment variables the script reads; an unset variable reads as "". */
  datatype Environment = Environment(localAppData: string, programFiles: string, programFilesX86: string)

  const EdgeExeParts: seq<string> := ["Microsoft", "Edge", "Application", "msedge.exe"]
  const EdgeDataParts: seq<string> := ["Microsoft", "Edge", "User Data"]
  const ChromeExeParts: seq<string> := ["Google", "Chrome", "Application", "chrome.exe"]
  const ChromeDataParts: seq<string> := ["Google", "Chrome", "User Data"]

  function EdgeData(env: Environment): string { PathJoin(env.localAppData, EdgeDataParts) }
  function ChromeData(env: Environment): string { PathJoin(env.localAppData, ChromeDataParts) }

  /** Edge is usable when its executable is under either Program Files directory
      and its user-data directory exists. */
  predicate EdgeAvailable(env: Environment, existing: set<string>) {
    && (PathJoin(env.programFilesX86, EdgeExeParts) in existing
        || PathJoin(env.programFiles, EdgeExeParts) in existing)
    && EdgeData(env) in existing
  }

  /** Chrome is usable when its executable is under Program Files, Program Files (x86)
      or the local application data directory, and its user-data directory exists. */
  predicate ChromeAvailable(env: Environment, existing: set<string>) {
    && (PathJoin(env.programFiles, ChromeExeParts) in existing
        || PathJoin(env.programFilesX86, ChromeExeParts) in existing
        || PathJoin(env.localAppData, ChromeExeParts) in existing)
    && ChromeData(env) in existing
  }

  /** `_get_system_browser`: the (user data directory, channel) pair, Edge first.
      Each executable path is tried in turn and replaced by the next one only
      when it does not exist. */
  function SystemBrowser(env: Environment, existing: set<string>): (r: (string, string))
    ensures EdgeAvailable(env, existing) ==> r == (EdgeData(env), "msedge")
    ensures !EdgeAvailable(env, existing) && ChromeAvailable(env, existing) ==> r == (ChromeData(env), "chrome")
    ensures !EdgeAvailable(env, existing) && !ChromeAvailable(env, existing) ==> r == ("", "")
  {
    var edgeExe :=
      if PathJoin(env.programFilesX86, EdgeExeParts) in existing then PathJoin(env.programFilesX86, EdgeExeParts)
      else PathJoin(env.programFiles, EdgeExeParts);
    if edgeExe in existing && EdgeData(env) in existing then (EdgeData(env), "msedge")
    else
      var chromeExe0 := PathJoin(env.programFiles, ChromeExeParts);
      var chromeExe1 := if chromeExe0 in existing then chromeExe0 else PathJoin(env.programFilesX86, ChromeExeParts);
      var chromeExe := if chromeExe1 in existing then chromeExe1 else PathJoin(env.localAppData, ChromeExeParts);
      if chromeExe in existing && ChromeData(env) in existing then (ChromeData(env), "chrome")
      else ("", "")
  }

  lemma JoinNonEmpty(parts: seq<string>)
    requires |parts| > 1
    ensures |Join(parts, "\\")| > 0
  {
  }

  /** The resolved directory is empty exactly when neither browser is usable. */
  lemma SystemBrowserEmptyIffNone(env: Environment, existing: set<string>)
    ensures SystemBrowser(env, existing).0 == "" <==> !EdgeAvailable(env, existing) && !ChromeAvailable(env, existing)
  {
    JoinNonEmpty(EdgeDataParts);
    JoinNonEmpty(ChromeDataParts);
  }

  // ---------------------------------------------------------------------
  // Launching the persistent context

  datatype LaunchError = NoBrowserFound | ProfileLocked | LaunchFailed(message: string)

  /** What `_launch_context` leaves behind: an open context or a `sys.exit(1)` with its reason. */
  datatype Launch = Launched(userDataDir: string, channel: string) | Aborted(reason: LaunchError)

  /** A launch failure whose lower-cased message mentions "already in use",
      "winerror 32" or "lock" means another browser window holds the profile. */
  predicate IsLockMessage(message: string) {
    var m := Lower(message);
    Contains(m, "already in use") || Contains(m, "winerror 32") || Contains(m, "lock")
  }

  /** `_launch_context`. `launchFailure` is the message of the exception the
      driver raised, if it raised one. */
  function LaunchContext(env: Environment, existing: set<string>, launchFailure: Option<string>): (r: Launch)
    ensures r.Aborted? && r.reason == NoBrowserFound
            <==> !EdgeAvailable(env, existing) && !ChromeAvailable(env, existing)
    ensures r.Aborted? && r.reason == ProfileLocked
            <==> (EdgeAvailable(env, existing) || ChromeAvailable(env, existing))
                 && launchFailure.Some? && IsLockMessage(launchFailure.value)
    ensures r.Launched? <==> (EdgeAvailable(env, existing) || ChromeAvailable(env, existing)) && launchFailure.None?
    ensures r.Launched? ==> (r.userDataDir, r.channel) == SystemBrowser(env, existing)
  {
    SystemBrowserEmptyIffNone(env, existing);
    var (dir, channel) := SystemBrowser(env, existing);
    if dir == "" then Aborted(NoBrowserFound)
    else match launchFailure
      case None => Launched(dir, channel)
      case Some(m) => if IsLockMessage(m) then Aborted(ProfileLocked) else Aborted(LaunchFailed(m))
  }

  /** The classification is a substring test, so "blocked" reads as a lock. */
  lemma BlockedReadsAsLock()
    ensures IsLockMessage("Access BLOCKED by policy")
  {
    var m := Lower("Access BLOCKED by policy");
    assert m == "access blocked by policy";
    assert IsPrefix("lock", m[8..]);
    ContainsAt(m, "lock");
  }

  // ---------------------------------------------------------------------
  // Cookie login test

  datatype Cookie = Cookie(name: string, value: string)

  const SessionCookieNames: set<string> := {"a1", "web_session", "webId", "gid"}

  /** `_is_logged_in`: some cookie of the site carries one of the four session
      cookie names, compared exactly (case matters). */
  predicate LoggedIn(cookies: seq<Cookie>) {
    (set c | c in cookies :: c.name) * SessionCookieNames != {}
  }

  lemma LoggedInIff(cookies: seq<Cookie>)
    ensures LoggedIn(cookies) <==> exists i :: 0 <= i < |cookies| && cookies[i].name in SessionCookieNames
  {
    var names := set c | c in cookies :: c.name;
    if LoggedIn(cookies) {
      var n :| n in names * SessionCookieNames;
      var c :| c in cookies && c.name == n;
      var i :| 0 <= i < |cookies| && cookies[i] == c;
    } else {
      forall i | 0 <= i < |cookies| ensures cookies[i].name !in SessionCookieNames {
        assert cookies[i] in cookies;
        assert cookies[i].name in names;
        assert cookies[i].name !in names * SessionCookieNames;
      }
    }
  }

  /** A cookie that differs from a session cookie name only in case does not count. */
  lemma CookieNamesAreCaseSensitive()
    ensures !LoggedIn([Cookie("WEBID", "x"), Cookie("GID", "y")])
  {
    var cookies := [Cookie("WEBID", "x"), Cookie("GID", "y")];
    var names := set c | c in cookies :: c.name;
    assert names == {"WEBID", "GID"};
  }

  // ---------------------------------------------------------------------
  // What the script does to the browser

  datatype Action =
    | NewPage
    | Goto(url: string)
    | Sleep(ms: nat)
    | ReadCookies
    | ClickTab                           // the "上传图文" tab, by its exact text
    | WaitFor(selector: string, timeoutMs: nat)
    | QueryAll(selector: string)
    | ClickElement(selector: string)
    | ClickButton(button: nat)
    | Fill(selector: string, text: string)
    | Press(key: string)
    | TypeText(text: string, delayMs: nat)
    | ClosePage
    | CloseContext

  const HomeUrl := "https://www.xiaohongshu.com"
  const PublishUrl := "https://creator.xiaohongshu.com/publish/publish"

  // ---------------------------------------------------------------------
  // The login wait

  const MaxPolls: nat := 100
  const PollIntervalMs: nat := 3000

  /** The first `k` in `from..bound` for which `hit(k)` holds. */
  function FirstHit(hit: nat -> bool, from: nat, bound: nat): (r: Option<nat>)
    decreases bound - from
    ensures r.Some? ==> from <= r.value < bound && hit(r.value)
    ensures r.Some? ==> forall j :: from <= j < r.value ==> !hit(j)
    ensures r.None? ==> forall j :: from <= j < bound ==> !hit(j)
  {
    if from >= bound then None
    else if hit(from) then Some(from)
    else FirstHit(hit, from + 1, bound)
  }

  /** The browser's answers: the cookies at the start and the cookies seen at
      each poll of the login wait (poll 0 is the first). */
  datatype Session = Session(initialCookies: seq<Cookie>, cookiesAtPoll: nat -> seq<Cookie>)

  function PollHit(session: Session): nat -> bool {
    (k: nat) => LoggedIn(session.cookiesAtPoll(k))
  }

  /** The result of `_wait_for_login`: the login page after `polls` polls, or `None`. */
  datatype LoginWait = LoginPage(polls: nat) | LoginTimeout

  function LoginWaitOf(session: Session): LoginWait {
    match FirstHit(PollHit(session), 0, MaxPolls)
    case Some(k) => LoginPage(k + 1)
    case None => LoginTimeout
  }

  function PollsDone(w: LoginWait): nat {
    if w.LoginPage? then w.polls else MaxPolls
  }

  /** `k` polls, each a 3-second sleep followed by a cookie read. */
  function Polls(k: nat): (r: seq<Action>)
    ensures CloseContext !in r
  {
    if k == 0 then [] else Polls(k - 1) + [Sleep(PollIntervalMs), ReadCookies]
  }

  /** `_wait_for_login`: opens a page on the home page, then sleeps and polls
      the cookies at most 100 times, and stops at the first poll that sees a
      session cookie; after 100 negative polls it closes the page. */
  method WaitForLogin(session: Session) returns (r: LoginWait, steps: seq<Action>)
    ensures r == LoginWaitOf(session)
    ensures r.LoginPage? ==> 1 <= r.polls <= MaxPolls && LoggedIn(session.cookiesAtPoll(r.polls - 1))
    ensures r.LoginPage? ==> forall j :: 0 <= j < r.polls - 1 ==> !LoggedIn(session.cookiesAtPoll(j))
    ensures r.LoginTimeout? <==> forall j :: 0 <= j < MaxPolls ==> !LoggedIn(session.cookiesAtPoll(j))
    ensures steps == [NewPage, Goto(HomeUrl)] + Polls(PollsDone(r)) + (if r.LoginTimeout? then [ClosePage] else [])
  {
    steps := [NewPage, Goto(HomeUrl)];
    var i := 0;
    while i < MaxPolls
      invariant 0 <= i <= MaxPolls
      invariant forall j :: 0 <= j < i ==> !LoggedIn(session.cookiesAtPoll(j))
      invariant steps == [NewPage, Goto(HomeUrl)] + Polls(i)
    {
      steps := steps + [Sleep(PollIntervalMs), ReadCookies];
      if LoggedIn(session.cookiesAtPoll(i)) {
        FirstPositivePollEndsWait(session, i + 1);
        r := LoginPage(i + 1);
        return;
      }
      i := i + 1;
    }
    r := LoginTimeout;
    steps := steps + [ClosePage];
  }

  /** When the first positive poll is the `k`-th, the wait ends after exactly `k` polls. */
  lemma FirstPositivePollEndsWait(session: Session, k: nat)
    requires 1 <= k <= MaxPolls
    requires LoggedIn(session.cookiesAtPoll(k - 1))
    requires forall j :: 0 <= j < k - 1 ==> !LoggedIn(session.cookiesAtPoll(j))
    ensures LoginWaitOf(session) == LoginPage(k)
    ensures |Polls(PollsDone(LoginWaitOf(session)))| == 2 * k
  {
    var hit := PollHit(session);
    assert hit(k - 1);
    assert forall j :: 0 <= j < k - 1 ==> !hit(j);
    PollsLength(k);
  }

  lemma {:induction false} PollsLength(k: nat)
    ensures |Polls(k)| == 2 * k
    ensures forall j :: 0 <= j < k ==> Polls(k)[2 * j] == Sleep(PollIntervalMs) && Polls(k)[2 * j + 1] == ReadCookies
  {
    if k > 0 {
      PollsLength(k - 1);
    }
  }

  // ---------------------------------------------------------------------
  // Selector cascades

  const TitleSelectors: seq<string> :=
    ["input[placeholder*='标题']", "input[placeholder*='title']", ".title-input input", "input[class*='title']"]
  const BodySelectors: seq<string> :=
    ["div[contenteditable='true']", ".editor-content", "div[class*='editor']"]
  const FieldTimeoutMs: nat := 3000

  function Waits(selectors: seq<string>, timeoutMs: nat): (r: seq<Action>)
    ensures |r| == |selectors|
    ensures forall a :: a in r ==> a.WaitFor?
    ensures forall k :: 0 <= k < |selectors| ==> r[k] == WaitFor(selectors[k], timeoutMs)
  {
    seq(|selectors|, k requires 0 <= k < |selectors| => WaitFor(selectors[k], timeoutMs))
  }

  /** The `for sel in [...]` loops around `wait_for_selector`: candidates are
      waited for in order, each with its own timeout, and the first that
      resolves is used; none after it is tried. */
  method Locate(candidates: seq<string>, timeoutMs: nat, resolves: set<string>)
    returns (found: Option<string>, steps: seq<Action>)
    ensures found.Some? <==> exists j :: 0 <= j < |candidates| && candidates[j] in resolves
    ensures found.Some? ==> found.value in resolves && found.value == candidates[FirstIn(candidates, resolves).value]
    ensures steps == Waits(candidates[..Tried(candidates, resolves)], timeoutMs)
  {
    found := None;
    steps := [];
    var i := 0;
    while i < |candidates|
      invariant 0 <= i <= |candidates|
      invariant forall j :: 0 <= j < i ==> candidates[j] !in resolves
      invariant steps == Waits(candidates[..i], timeoutMs)
    {
      steps := steps + [WaitFor(candidates[i], timeoutMs)];
      if candidates[i] in resolves {
        found := Some(candidates[i]);
        assert FirstIn(candidates, resolves) == Some(i);
        assert steps == Waits(candidates[..i + 1], timeoutMs);
        return;
      }
      i := i + 1;
    }
    assert candidates[..i] == candidates;
  }

  // ---------------------------------------------------------------------
  // The submit button and the outcome

  const PublishButtonSelector := "button:has-text('发布')"
  const SuccessSelector := "text=发布成功, .success-toast"
  const ButtonTimeoutMs: nat := 5000

  /** The publish button: the last of all buttons matching "发布", if the
      first such button appeared within 5 seconds and the query found any. */
  function SubmitButton(appeared: bool, buttons: seq<nat>): (r: Option<nat>)
    ensures r.None? <==> !appeared || |buttons| == 0
    ensures r.Some? ==> r.value == buttons[|buttons| - 1]
    ensures r.Some? ==> appeared && r.value in buttons
  {
    if appeared && |buttons| > 0 then Some(buttons[|buttons| - 1]) else None
  }

  /** The publish page as the browser would show it: whether the mode tab is
      there, which selectors resolve within their timeout (the field
      candidates, the button selector and the success indicator), and the
      buttons `query_selector_all` returns. */
  datatype PublishPage = PublishPage(tabFound: bool, resolves: set<string>, buttons: seq<nat>)

  datatype PublishOutcome = NotLoggedIn | Published(title: string) | ReadyToConfirm(title: string) | Ready(title: string)

  /** A script run either ends with `sys.exit(code)` before a result exists, or returns one. */
  datatype Run<T> = Exited(code: int) | Returned(value: T)

  /** Whether the run gets past the login step: logged in from the start, or after the wait. */
  predicate PastLogin(session: Session) {
    LoggedIn(session.initialCookies) || LoginWaitOf(session).LoginPage?
  }

  function ButtonOf(page: PublishPage): Option<nat> {
    SubmitButton(PublishButtonSelector in page.resolves, page.buttons)
  }

  /** What the publish page leads to once the form is filled in. */
  function PageOutcome(title: string, page: PublishPage): PublishOutcome {
    if ButtonOf(page).None? then Ready(title)
    else if SuccessSelector in page.resolves then Published(title)
    else ReadyToConfirm(title)
  }

  /** The result of `publish_content` in terms of what the browser shows. */
  function PublishResult(title: string, launch: Launch, session: Session, page: PublishPage): Run<PublishOutcome> {
    if launch.Aborted? then Exited(1)
    else if !PastLogin(session) then Returned(NotLoggedIn)
    else Returned(PageOutcome(title, page))
  }

  /** The four outcomes, each stated by the observations that produce it. */
  lemma OutcomeMapping(title: string, launch: Launch, session: Session, page: PublishPage)
    requires launch.Launched?
    ensures PublishResult(title, launch, session, page) == Returned(NotLoggedIn)
            <==> !LoggedIn(session.initialCookies)
                 && forall j :: 0 <= j < MaxPolls ==> !LoggedIn(session.cookiesAtPoll(j))
    ensures PublishResult(title, launch, session, page) == Returned(Published(title))
            <==> PastLogin(session) && PublishButtonSelector in page.resolves && |page.buttons| > 0
                 && SuccessSelector in page.resolves
    ensures PublishResult(title, launch, session, page) == Returned(ReadyToConfirm(title))
            <==> PastLogin(session) && PublishButtonSelector in page.resolves && |page.buttons| > 0
                 && SuccessSelector !in page.resolves
    ensures PublishResult(title, launch, session, page) == Returned(Ready(title))
            <==> PastLogin(session) && (PublishButtonSelector !in page.resolves || |page.buttons| == 0)
  {
    var hit := PollHit(session);
    if FirstHit(hit, 0, MaxPolls).Some? {
      var k := FirstHit(hit, 0, MaxPolls).value;
      assert LoggedIn(session.cookiesAtPoll(k));
    } else {
      forall j | 0 <= j < MaxPolls ensures !LoggedIn(session.cookiesAtPoll(j)) {
        assert !hit(j);
      }
    }
  }

  /** Every outcome other than `not_logged_in` carries the title it was given. */
  lemma OutcomeCarriesTitle(title: string, launch: Launch, session: Session, page: PublishPage)
    ensures var r := PublishResult(title, launch, session, page);
            r.Returned? && !r.value.NotLoggedIn? ==> r.value.title == title
    ensures PublishResult(title, launch, session, page).Exited? <==> launch.Aborted?
  {
  }

  /** What the run does once it is on the publish page. */
  datatype FormFill = FormFill(titleField: Option<string>, bodyField: Option<string>, clicked: Option<nat>)

  /** The form the run fills in on a given page: the first title and body
      candidates that resolve, and the button it clicks. */
  predicate FormOf(form: FormFill, page: PublishPage) {
    && (form.titleField.Some? <==> FirstIn(TitleSelectors, page.resolves).Some?)
    && (form.titleField.Some? ==> form.titleField.value == TitleSelectors[FirstIn(TitleSelectors, page.resolves).value])
    && (form.bodyField.Some? <==> FirstIn(BodySelectors, page.resolves).Some?)
    && (form.bodyField.Some? ==> form.bodyField.value == BodySelectors[FirstIn(BodySelectors, page.resolves).value])
    && form.clicked == ButtonOf(page)
  }

  /** Lines 141-154: the title cascade, then a click and a fill when a candidate resolved. */
  method FillTitle(title: string, page: PublishPage) returns (field: Option<string>, steps: seq<Action>)
    ensures field.Some? <==> FirstIn(TitleSelectors, page.resolves).Some?
    ensures field.Some? ==> field.value == TitleSelectors[FirstIn(TitleSelectors, page.resolves).value]
    ensures CloseContext !in steps
    ensures field.Some? ==> Fill(field.value, title) in steps
  {
    var waits;
    field, waits := Locate(TitleSelectors, FieldTimeoutMs, page.resolves);
    var rest := if field.Some? then [ClickElement(field.value), Fill(field.value, title), Sleep(500)] else [];
    steps := waits + rest;
    assert field.Some? ==> Fill(field.value, title) == rest[1];
  }

  /** Lines 158-174: the body cascade, then select-all, delete and typing with a 20 ms delay per key. */
  method FillBody(content: string, page: PublishPage) returns (field: Option<string>, steps: seq<Action>)
    ensures field.Some? <==> FirstIn(BodySelectors, page.resolves).Some?
    ensures field.Some? ==> field.value == BodySelectors[FirstIn(BodySelectors, page.resolves).value]
    ensures CloseContext !in steps
    ensures field.Some? ==> TypeText(content, 20) in steps
  {
    var waits;
    field, waits := Locate(BodySelectors, FieldTimeoutMs, page.resolves);
    var rest := if field.Some? then [ClickElement(field.value), Sleep(300), Press("Control+a"), Press("Delete"),
                                     TypeText(content, 20), Sleep(500)] else [];
    steps := waits + rest;
    assert field.Some? ==> TypeText(content, 20) == rest[4];
  }

  /** Lines 176-208: the button wait, the choice of the last button, the click and the indicator. */
  method Submit(title: string, page: PublishPage) returns (outcome: PublishOutcome, button: Option<nat>, steps: seq<Action>)
    ensures outcome == PageOutcome(title, page)
    ensures button == ButtonOf(page)
    ensures CloseContext !in steps
    ensures button.Some? ==> ClickButton(button.value) in steps
  {
    var appeared := PublishButtonSelector in page.resolves;
    var query := if appeared then [QueryAll(PublishButtonSelector)] else [];
    button := SubmitButton(appeared, page.buttons);
    var click: seq<Action>;
    if button.Some? {
      click := [ClickButton(button.value), Sleep(3000), WaitFor(SuccessSelector, ButtonTimeoutMs)];
      outcome := if SuccessSelector in page.resolves then Published(title) else ReadyToConfirm(title);
    } else {
      click := [];
      outcome := Ready(title);
    }
    steps := [Sleep(1000), WaitFor(PublishButtonSelector, ButtonTimeoutMs)] + query + click;
    assert button.Some? ==> ClickButton(button.value) == click[0];
  }

  /** The part of `publish_content` from the navigation to the publish page on:
      the mode tab, the title and body cascades, the submit button and the
      success indicator. A field that no candidate finds is skipped and the
      run goes on. */
  method FillAndSubmit(title: string, content: string, page: PublishPage)
    returns (outcome: PublishOutcome, form: FormFill, steps: seq<Action>)
    ensures outcome == PageOutcome(title, page)
    ensures FormOf(form, page)
    ensures CloseContext !in steps
    ensures form.titleField.Some? ==> Fill(form.titleField.value, title) in steps
    ensures form.bodyField.Some? ==> TypeText(content, 20) in steps
    ensures form.clicked.Some? ==> ClickButton(form.clicked.value) in steps
  {
    var tab := [Goto(PublishUrl), Sleep(2000), ClickTab] + (if page.tabFound then [Sleep(2000)] else []);
    var titleField, titleSteps := FillTitle(title, page);
    var bodyField, bodySteps := FillBody(content, page);
    var button, submitSteps;
    outcome, button, submitSteps := Submit(title, page);
    form := FormFill(titleField, bodyField, button);
    steps := tab + titleSteps + bodySteps + submitSteps;
    InConcat4(tab, titleSteps, bodySteps, submitSteps);
  }

  lemma InConcat4(a: seq<Action>, b: seq<Action>, c: seq<Action>, d: seq<Action>)
    ensures forall x :: x in a + b + c + d <==> x in a || x in b || x in c || x in d
  {
  }

  /** Lines 113-120: the cookie check, and the login wait when it fails; the
      run goes on with a page exactly when it is past the login. */
  method EnsureLoggedIn(session: Session) returns (ok: bool, steps: seq<Action>)
    ensures ok == PastLogin(session)
    ensures CloseContext !in steps
  {
    if LoggedIn(session.initialCookies) {
      ok := true;
      steps := [ReadCookies, NewPage];
    } else {
      var w, ws := WaitForLogin(session);
      ok := w.LoginPage?;
      steps := [ReadCookies] + ws;
    }
  }

  /** The `finally: await context.close()`: the close comes last and only once. */
  lemma ClosedOnce(body: seq<Action>)
    requires CloseContext !in body
    ensures var t := body + [CloseContext]; |t| > 0 && t[|t| - 1] == CloseContext && CloseContext !in t[..|t| - 1]
  {
    var t := body + [CloseContext];
    assert t[..|t| - 1] == body;
  }

  /** `publish_content`. `images` and `tags` are accepted and never read. The
      context is closed on every path once it was launched. */
  method PublishContent(title: string, content: string, images: Option<seq<string>>, tags: Option<seq<string>>,
                        launch: Launch, session: Session, page: PublishPage)
    returns (r: Run<PublishOutcome>, form: FormFill, trace: seq<Action>)
    ensures r == PublishResult(title, launch, session, page)
    ensures launch.Aborted? ==> trace == []
    ensures launch.Launched? ==> |trace| > 0 && trace[|trace| - 1] == CloseContext
                                 && CloseContext !in trace[..|trace| - 1]
    ensures launch.Launched? && PastLogin(session) ==> FormOf(form, page)
    ensures !(launch.Launched? && PastLogin(session)) ==> form == FormFill(None, None, None)
    ensures form.titleField.Some? ==> Fill(form.titleField.value, title) in trace
    ensures form.bodyField.Some? ==> TypeText(content, 20) in trace
    ensures form.clicked.Some? ==> ClickButton(form.clicked.value) in trace
  {
    form := FormFill(None, None, None);
    if launch.Aborted? {
      r, trace := Exited(1), [];
      return;
    }
    var ok, loginSteps := EnsureLoggedIn(session);
    if !ok {
      r, trace := Returned(NotLoggedIn), loginSteps + [CloseContext];
      ClosedOnce(loginSteps);
      return;
    }
    var outcome, pageSteps;
    outcome, form, pageSteps := FillAndSubmit(title, content, page);
    r := Returned(outcome);
    var body := loginSteps + pageSteps;
    trace := body + [CloseContext];
    ClosedOnce(body);
  }

  // ---------------------------------------------------------------------
  // The status command

  datatype Status = StatusLoggedIn | StatusNotLoggedIn

  /** `check_status`: logged in from the start or after the login wait. */
  method CheckStatus(launch: Launch, session: Session) returns (r: Run<Status>, trace: seq<Action>)
    ensures launch.Aborted? <==> r == Exited(1)
    ensures r == Returned(StatusLoggedIn) <==> launch.Launched? && PastLogin(session)
    ensures r == Returned(StatusNotLoggedIn) <==> launch.Launched? && !PastLogin(session)
    ensures launch.Aborted? ==> trace == []
    ensures launch.Launched? ==> |trace| > 0 && trace[|trace| - 1] == CloseContext
                                 && CloseContext !in trace[..|trace| - 1]
    ensures launch.Launched? && LoggedIn(session.initialCookies) ==> trace == [ReadCookies, CloseContext]
  {
    trace := [];
    if launch.Aborted? {
      r := Exited(1);
      return;
    }
    if LoggedIn(session.initialCookies) {
      r := Returned(StatusLoggedIn);
      trace := [ReadCookies, CloseContext];
      return;
    }
    var w, ws := WaitForLogin(session);
    r := if w.LoginPage? then Returned(StatusLoggedIn) else Returned(StatusNotLoggedIn);
    trace := [ReadCookies] + ws + [CloseContext];
    ClosedOnce([ReadCookies] + ws);
  }

  // ---------------------------------------------------------------------
  // Command-line dispatch

  /** The parsed command line; absent options are `None`. */
  datatype CliArgs = CliArgs(command: string, title: Option<string>, content: Option<string>,
                             images: Option<string>, tags: Option<string>, delay: Option<int>)

  /** What `main` goes on to do. */
  datatype Dispatch =
    | RunStatus
    | RunPublish(title: string, content: string, images: Option<seq<string>>, tags: Option<seq<string>>, sleepSeconds: nat)
    | NegativeSleep(delay: int)   // `time.sleep` rejects a negative delay with an exception
    | ExitCode(code: int)

  /** A present, non-empty argument (Python's truth value of an optional string). */
  predicate Given(arg: Option<string>) {
    arg.Some? && arg.value != ""
  }

  /** `--images a,b` and `--tags x,y`: split on ",", absent when not given or empty. */
  function SplitList(arg: Option<string>): (r: Option<seq<string>>)
    ensures r.Some? <==> Given(arg)
    ensures r.Some? ==> Join(r.value, ",") == arg.value && forall p :: p in r.value ==> ',' !in p
  {
    if Given(arg) then
      JoinSplit(arg.value, ',');
      SplitPiecesFree(arg.value, ',');
      Some(Split(arg.value, ','))
    else None
  }

  /** `main` after argument parsing. */
  function DispatchCommand(args: CliArgs): (r: Dispatch)
    ensures r == RunStatus <==> args.command == "status"
    ensures r.RunPublish? ==> args.command in {"publish", "schedule"} && Given(args.title) && Given(args.content)
    ensures r.RunPublish? ==> r.title == args.title.value && r.content == args.content.value
    ensures r.RunPublish? ==> r.images == SplitList(args.images) && r.tags == SplitList(args.tags)
    ensures r.RunPublish? && args.command == "publish" ==> r.sleepSeconds == 0
    ensures args.command == "publish" && Given(args.title) && Given(args.content) ==> r.RunPublish? && r.sleepSeconds == 0
    ensures args.command in {"publish", "schedule"} && !(Given(args.title) && Given(args.content)) ==> r == ExitCode(1)
    ensures args.command !in {"status", "publish", "schedule"} ==> r == ExitCode(1)
    ensures args.command == "schedule" && Given(args.title) && Given(args.content) ==>
              match args.delay
              case None => r.RunPublish? && r.sleepSeconds == 0
              case Some(d) => if d >= 0 then r.RunPublish? && r.sleepSeconds == d else r == NegativeSleep(d)
  {
    if args.command == "status" then RunStatus
    else if args.command == "publish" || args.command == "schedule" then
      if !Given(args.title) || !Given(args.content) then ExitCode(1)
      else
        var delay := if args.command == "publish" then 0 else match args.delay case None => 0 case Some(d) => d;
        if delay < 0 then NegativeSleep(delay)
        else RunPublish(args.title.value, args.content.value, SplitList(args.images), SplitList(args.tags), delay)
    else ExitCode(1)
  }
}
