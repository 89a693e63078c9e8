/** The search-and-harvest script of the xiaohongshu-search skill: the
    user-data directory, the layered login detector, the time-bounded login
    wait, the extraction of image sources and titles, the two text files it
    writes and the result it prints.

    The page is replaced by what it would have shown: which selectors
    resolve within their timeout, the page HTML, the `src` attribute of each
    image element and the inner text of each title element. */
module Search {
  import opened Strings
  import opened Cascade
  import opened Script

  // ---------------------------------------------------------------------
  // User-data directory

  const ChromeDataParts: seq<string> := ["Google", "Chrome", "User Data"]
  const EdgeDataParts: seq<string> := ["Microsoft", "Edge", "User Data"]

  /** `get_default_chrome_user_data_dir`: Chrome's profile directory before
      Edge's, both under LOCALAPPDATA; nothing when that variable is unset or
      empty or neither directory exists. */
  function DefaultUserDataDir(localAppData: Option<string>, existing: set<string>): (r: Option<string>)
    ensures localAppData.None? || localAppData.value == "" ==> r.None?
    ensures localAppData.Some? && localAppData.value != "" ==>
              var chrome := PathJoin(localAppData.value, ChromeDataParts);
              var edge := PathJoin(localAppData.value, EdgeDataParts);
              r == if chrome in existing then Some(chrome) else if edge in existing then Some(edge) else None
    ensures r.Some? ==> r.value in existing
  {
    match localAppData
    case None => None
    case Some(local) =>
      if local == "" then None
      else if PathJoin(local, ChromeDataParts) in existing then Some(PathJoin(local, ChromeDataParts))
      else if PathJoin(local, EdgeDataParts) in existing then Some(PathJoin(local, EdgeDataParts))
      else None
  }

  // ---------------------------------------------------------------------
  // Login detection

  const LoginSelectors: seq<string> := [
    ".user.side-bar-component", "a[href*='/user/profile']", "[src*='sns-avatar']", "[class*='user']",
    ".avatar", "[class*='avatar']", "img[src*='avatar']", ".user-nickname",
    "text=创作中心", "text=业务合作", ".publish-btn", ".global-nav"]

  const LoginIndicators: seq<string> := ["退出登录", "个人主页", "创作中心", "业务合作", "sns-avatar", "/user/profile/"]

  const SelectorTimeoutMs: nat := 2000

  /** The page as `check_login` sees it: the selectors that resolve within
      2 seconds, and the HTML `page.content()` returns (`None` when it raises). */
  datatype SearchPage = SearchPage(resolves: set<string>, html: Option<string>)

  predicate SomeIndicator(html: string) {
    exists k :: 0 <= k < |LoginIndicators| && Contains(html, LoginIndicators[k])
  }

  /** The answer `check_login` gives: some login selector resolves, or else
      the HTML contains one of the six indicator strings. */
  predicate Detected(page: SearchPage) {
    || (exists j :: 0 <= j < |LoginSelectors| && LoginSelectors[j] in page.resolves)
    || (page.html.Some? && SomeIndicator(page.html.value))
  }

  /** `check_login`: the twelve selectors in order, then the six strings. The
      `timeout` argument is never used; each selector gets 2 seconds.
      `waitedMs` is the time spent in selector waits. */
  method CheckLogin(page: SearchPage, timeout: int) returns (loggedIn: bool, waitedMs: nat)
    ensures loggedIn == Detected(page)
    ensures waitedMs == SelectorTimeoutMs * Tried(LoginSelectors, page.resolves)
    ensures (exists j :: 0 <= j < |LoginSelectors| && LoginSelectors[j] in page.resolves) ==> loggedIn
  {
    waitedMs := 0;
    var i := 0;
    while i < |LoginSelectors|
      invariant 0 <= i <= |LoginSelectors|
      invariant forall j :: 0 <= j < i ==> LoginSelectors[j] !in page.resolves
      invariant waitedMs == SelectorTimeoutMs * i
    {
      waitedMs := waitedMs + SelectorTimeoutMs;
      if LoginSelectors[i] in page.resolves {
        assert FirstIn(LoginSelectors, page.resolves) == Some(i);
        return true, waitedMs;
      }
      i := i + 1;
    }
    assert FirstIn(LoginSelectors, page.resolves).None?;
    if page.html.None? {
      return false, waitedMs;
    }
    var html := page.html.value;
    var k := 0;
    while k < |LoginIndicators|
      invariant 0 <= k <= |LoginIndicators|
      invariant forall j :: 0 <= j < k ==> !Contains(html, LoginIndicators[j])
    {
      if Contains(html, LoginIndicators[k]) {
        return true, waitedMs;
      }
      k := k + 1;
    }
    loggedIn := false;
  }

  // ---------------------------------------------------------------------
  // The login wait

  const LoginDeadlineMs: nat := 300000
  const RecheckSleepMs: nat := 2000

  /** What the page shows at the `i`-th check, and how long the `i`-th check
      takes beyond its selector waits (the content fetch, driver latency). */
  datatype Checks = Checks(pageAt: nat -> SearchPage, extraMs: nat -> nat)

  /** How long the `i`-th check takes: 2 seconds per selector tried, plus the rest. */
  function CheckCost(checks: Checks): nat -> nat {
    (i: nat) => CostOf(checks, i)
  }

  function CostOf(checks: Checks, i: nat): nat {
    SelectorTimeoutMs * Tried(LoginSelectors, checks.pageAt(i).resolves) + checks.extraMs(i)
  }

  /** Whether the `i`-th check sees a login. */
  function CheckSees(checks: Checks): nat -> bool {
    (i: nat) => Detected(checks.pageAt(i))
  }

  /** The end of `wait_for_login`: whether it saw a login, after how many
      checks, and the clock (milliseconds since the wait started). */
  datatype WaitResult = WaitResult(loggedIn: bool, checks: nat, elapsedMs: nat)

  /** The loop from check `i` on, with `elapsed` on the clock, where check `j`
      sees a login when `sees(j)` and takes `cost(j)` milliseconds. */
  function WaitFrom(sees: nat -> bool, cost: nat -> nat, i: nat, elapsed: nat): WaitResult
    decreases LoginDeadlineMs - elapsed
  {
    if elapsed >= LoginDeadlineMs then WaitResult(false, i, elapsed)
    else if sees(i) then WaitResult(true, i + 1, elapsed + cost(i))
    else WaitFrom(sees, cost, i + 1, elapsed + cost(i) + RecheckSleepMs)
  }

  /** From check `i` on: a reported login is the first check that saw one;
      a timeout comes only once the clock reached the deadline, and overshoots
      it by less than the last check and one sleep; every check but the last
      started before the deadline, after a 2-second sleep per earlier check. */
  lemma {:induction false} WaitFromBounds(sees: nat -> bool, cost: nat -> nat, i: nat, elapsed: nat)
    decreases LoginDeadlineMs - elapsed
    ensures var r := WaitFrom(sees, cost, i, elapsed);
            && r.checks >= i
            && (r.loggedIn ==> r.checks > i && sees(r.checks - 1) && elapsed < LoginDeadlineMs)
            && (forall j :: i <= j < r.checks - (if r.loggedIn then 1 else 0) ==> !sees(j))
            && (!r.loggedIn ==> r.elapsedMs >= LoginDeadlineMs)
            && (!r.loggedIn && r.checks > i ==> r.elapsedMs < LoginDeadlineMs + cost(r.checks - 1) + RecheckSleepMs)
            && (elapsed < LoginDeadlineMs ==> r.checks > i)
            && (r.checks > i ==> elapsed + RecheckSleepMs * (r.checks - i - 1) < LoginDeadlineMs)
  {
    if elapsed < LoginDeadlineMs && !sees(i) {
      var next := elapsed + cost(i) + RecheckSleepMs;
      WaitFromBounds(sees, cost, i + 1, next);
      var r := WaitFrom(sees, cost, i + 1, next);
      if r.checks > i + 1 {
        assert RecheckSleepMs * (r.checks - i - 1) == RecheckSleepMs * (r.checks - (i + 1) - 1) + RecheckSleepMs;
      }
    }
  }

  /** When check `j` starts, if check `i` starts at `elapsed` and every check
      in between is negative and followed by a sleep. */
  function StartOf(cost: nat -> nat, i: nat, elapsed: nat, j: nat): nat
    requires i <= j
    decreases j - i
  {
    if j == i then elapsed else StartOf(cost, i + 1, elapsed + cost(i) + RecheckSleepMs, j)
  }

  /** The wait's clock from check `i` on: every check it makes starts before
      the deadline, and it ends when the last check does (on a login) or
      when the check after the last would start (on a timeout). */
  lemma {:induction false} WaitFromTiming(sees: nat -> bool, cost: nat -> nat, i: nat, elapsed: nat)
    decreases LoginDeadlineMs - elapsed
    ensures var r := WaitFrom(sees, cost, i, elapsed);
            && r.checks >= i
            && (r.loggedIn ==> r.checks > i)
            && (forall j :: i <= j < r.checks ==> StartOf(cost, i, elapsed, j) < LoginDeadlineMs)
            && (r.loggedIn ==> r.elapsedMs == StartOf(cost, i, elapsed, r.checks - 1) + cost(r.checks - 1))
            && (!r.loggedIn ==> r.elapsedMs == StartOf(cost, i, elapsed, r.checks))
  {
    if elapsed < LoginDeadlineMs && !sees(i) {
      var next := elapsed + cost(i) + RecheckSleepMs;
      WaitFromTiming(sees, cost, i + 1, next);
      var r := WaitFrom(sees, cost, i + 1, next);
      forall j | i <= j < r.checks ensures StartOf(cost, i, elapsed, j) < LoginDeadlineMs {
        if j > i {
          assert StartOf(cost, i, elapsed, j) == StartOf(cost, i + 1, next, j);
        }
      }
      if r.loggedIn {
        assert StartOf(cost, i, elapsed, r.checks - 1) == StartOf(cost, i + 1, next, r.checks - 1);
      } else {
        assert StartOf(cost, i, elapsed, r.checks) == StartOf(cost, i + 1, next, r.checks);
      }
    }
  }

  function WaitOutcome(checks: Checks): WaitResult {
    WaitFrom(CheckSees(checks), CheckCost(checks), 0, 0)
  }

  /** The `i`-th check of the wait, and the time it takes. */
  method CheckAt(checks: Checks, i: nat) returns (ok: bool, spent: nat)
    ensures ok == CheckSees(checks)(i) && spent == CheckCost(checks)(i)
  {
    var waited;
    ok, waited := CheckLogin(checks.pageAt(i), 3000);
    spent := waited + checks.extraMs(i);
  }

  /** `wait_for_login`: while less than 300 seconds have passed, check, return
      on a login, otherwise sleep 2 seconds. The check comes before the sleep. */
  method WaitForLogin(checks: Checks) returns (r: WaitResult)
    ensures r == WaitOutcome(checks)
  {
    ghost var sees, cost := CheckSees(checks), CheckCost(checks);
    var elapsed: nat := 0;
    var i: nat := 0;
    ghost var outcome := WaitFrom(sees, cost, i, elapsed);
    while elapsed < LoginDeadlineMs
      invariant WaitFrom(sees, cost, i, elapsed) == outcome
      decreases LoginDeadlineMs - elapsed
    {
      var ok, spent := CheckAt(checks, i);
      if ok {
        assert outcome == WaitResult(true, i + 1, elapsed + spent);
        return WaitResult(true, i + 1, elapsed + spent);
      }
      assert outcome == WaitFrom(sees, cost, i + 1, elapsed + spent + RecheckSleepMs);
      elapsed := elapsed + spent + RecheckSleepMs;
      i := i + 1;
    }
    r := WaitResult(false, i, elapsed);
  }

  /** The wait checks at least once and at most 150 times; it reports a login
      exactly when one of its checks saw one, and the first such check ends it;
      a timed-out wait has used at least 300 seconds and overshoots by less than
      one check and one sleep. */
  lemma WaitBounds(checks: Checks)
    ensures var r := WaitOutcome(checks);
            && 1 <= r.checks <= LoginDeadlineMs / RecheckSleepMs
            && (r.loggedIn <==> exists j :: 0 <= j < r.checks && Detected(checks.pageAt(j)))
            && (r.loggedIn ==> forall j :: 0 <= j < r.checks - 1 ==> !Detected(checks.pageAt(j)))
            && (!r.loggedIn ==> LoginDeadlineMs <= r.elapsedMs < LoginDeadlineMs + CheckCost(checks)(r.checks - 1) + RecheckSleepMs)
  {
    var sees := CheckSees(checks);
    var r := WaitOutcome(checks);
    WaitFromBounds(sees, CheckCost(checks), 0, 0);
    assert forall j: nat :: sees(j) == Detected(checks.pageAt(j));
    if r.loggedIn {
      assert sees(r.checks - 1);
    }
  }

  // ---------------------------------------------------------------------
  // Extraction

  /** Python's `xs[:n]` for an integer `n`: a negative `n` counts from the end. */
  function PyTake<T>(xs: seq<T>, n: int): (r: seq<T>)
    ensures n >= 0 ==> |r| == if n < |xs| then n else |xs|
    ensures n < 0 ==> |r| == if -n < |xs| then |xs| + n else 0
    ensures r <= xs
  {
    if n >= 0 then (if n < |xs| then xs[..n] else xs)
    else if -n < |xs| then xs[..|xs| + n] else []
  }

  /** `src and ('http' in src or '//' in src)` */
  predicate KeepSource(src: string) {
    src != "" && (Contains(src, "http") || Contains(src, "//"))
  }

  /** A protocol-relative source gets the `https:` scheme; any other is kept as it is. */
  function NormaliseSource(src: string): (r: string)
    ensures IsPrefix("//", src) ==> r == "https:" + src
    ensures !IsPrefix("//", src) ==> r == src
  {
    if IsPrefix("//", src) then "https:" + src else src
  }

  /** Normalising keeps the source as a suffix and never leaves a
      protocol-relative result, so a second pass changes nothing. */
  lemma NormaliseSourceSettles(src: string)
    ensures var r := NormaliseSource(src);
            |src| <= |r| && r[|r| - |src|..] == src && !IsPrefix("//", r)
  {
    var r := NormaliseSource(src);
    if IsPrefix("//", src) {
      assert r[0] == 'h';
    }
  }

  /** The sources kept from the first `count` image elements, in element
      order; an element without a readable `src` is `None`. */
  function ImagesOf(elements: seq<Option<string>>, count: int): seq<string> {
    KeptSources(PyTake(elements, count))
  }

  function KeptSources(elements: seq<Option<string>>): (r: seq<string>)
    ensures |r| <= |elements|
  {
    if |elements| == 0 then []
    else
      var rest := KeptSources(elements[1..]);
      match elements[0]
      case Some(src) => if KeepSource(src) then [NormaliseSource(src)] + rest else rest
      case None => rest
  }

  lemma {:induction false} KeptSourcesAppend(elements: seq<Option<string>>, e: Option<string>)
    ensures KeptSources(elements + [e]) ==
            KeptSources(elements) + (if e.Some? && KeepSource(e.value) then [NormaliseSource(e.value)] else [])
    decreases |elements|
  {
    if |elements| == 0 {
      assert ([e])[1..] == [];
    } else {
      assert (elements + [e])[1..] == elements[1..] + [e];
      KeptSourcesAppend(elements[1..], e);
    }
  }

  /** Lines 159-170: the loop over the first `count` image elements. */
  method ExtractImages(elements: seq<Option<string>>, count: int) returns (results: seq<string>)
    ensures results == ImagesOf(elements, count)
    ensures count >= 0 ==> |results| <= count
    ensures |results| <= |elements|
  {
    var capped := PyTake(elements, count);
    results := [];
    var i := 0;
    while i < |capped|
      invariant 0 <= i <= |capped|
      invariant results == KeptSources(capped[..i])
    {
      var e := capped[i];
      KeptSourcesAppend(capped[..i], e);
      assert capped[..i + 1] == capped[..i] + [e];
      if e.Some? && KeepSource(e.value) {
        results := results + [NormaliseSource(e.value)];
      }
      i := i + 1;
    }
    assert capped[..i] == capped;
  }

  /** `r` is what the elements at the increasing positions `pos` give: each
      such element has a kept source and `r[k]` is its normalised form. */
  predicate TakenAt(elements: seq<Option<string>>, r: seq<string>, pos: seq<nat>) {
    && |pos| == |r|
    && (forall k :: 0 <= k < |pos| ==> pos[k] < |elements|)
    && (forall k, l :: 0 <= k < l < |pos| ==> pos[k] < pos[l])
    && (forall k :: 0 <= k < |pos| ==>
          elements[pos[k]].Some? && KeepSource(elements[pos[k]].value)
          && r[k] == NormaliseSource(elements[pos[k]].value))
  }

  /** Positions one further on. */
  function Shift(pos: seq<nat>): (r: seq<nat>)
    ensures |r| == |pos| && forall k :: 0 <= k < |pos| ==> r[k] == pos[k] + 1
  {
    seq(|pos|, k requires 0 <= k < |pos| => pos[k] + 1)
  }

  lemma TakenShift(elements: seq<Option<string>>, r: seq<string>, pos: seq<nat>)
    requires |elements| > 0 && TakenAt(elements[1..], r, pos)
    ensures TakenAt(elements, r, Shift(pos))
  {
    var sh := Shift(pos);
    forall k | 0 <= k < |sh|
      ensures elements[sh[k]] == elements[1..][pos[k]]
    {
    }
  }

  lemma TakenCons(elements: seq<Option<string>>, r: seq<string>, pos: seq<nat>)
    requires |elements| > 0 && elements[0].Some? && KeepSource(elements[0].value)
    requires TakenAt(elements, r, pos) && forall k :: 0 <= k < |pos| ==> pos[k] > 0
    ensures TakenAt(elements, [NormaliseSource(elements[0].value)] + r, [0] + pos)
  {
    var pos' := [0] + pos;
    var r' := [NormaliseSource(elements[0].value)] + r;
    assert forall k :: 0 < k < |pos'| ==> pos'[k] == pos[k - 1] && r'[k] == r[k - 1];
  }

  /** The harvest keeps element order: every harvested source is the
      normalised form of a kept source, taken from increasing positions. */
  lemma {:induction false} KeptSourcesOrder(elements: seq<Option<string>>)
    ensures exists pos :: TakenAt(elements, KeptSources(elements), pos)
    decreases |elements|
  {
    if |elements| == 0 {
      assert TakenAt(elements, KeptSources(elements), []);
    } else {
      KeptSourcesOrder(elements[1..]);
      var rest := KeptSources(elements[1..]);
      var pos' :| TakenAt(elements[1..], rest, pos');
      TakenShift(elements, rest, pos');
      if elements[0].Some? && KeepSource(elements[0].value) {
        TakenCons(elements, rest, Shift(pos'));
        assert KeptSources(elements) == [NormaliseSource(elements[0].value)] + rest;
        assert TakenAt(elements, KeptSources(elements), [0] + Shift(pos'));
      } else {
        assert KeptSources(elements) == rest;
        assert TakenAt(elements, rest, Shift(pos'));
      }
    }
  }

  /** A source is kept when it mentions "http" or "//" anywhere, so an `ftp://` source is kept too. */
  lemma FtpSourceIsKept()
    ensures KeepSource("ftp://x") && NormaliseSource("ftp://x") == "ftp://x"
  {
    var src := "ftp://x";
    assert src[..2][0] == 'f';
    assert src[4..][..2] == "//";
    assert IsPrefix("//", src[4..]);
    ContainsAt(src, "//");
  }

  lemma ProtocolRelativeSource()
    ensures NormaliseSource("//img.example.com/a.jpg") == "https://img.example.com/a.jpg"
  {
  }

  /** The cap applies before the filter: an unusable first element leaves the
      harvest short even when a later element has a usable source. */
  lemma CapBeforeFilter()
    ensures ImagesOf([None, Some("http://a")], 1) == []
    ensures |KeptSources([None, Some("http://a")])| == 1
  {
    assert KeepSource("http://a") by {
      assert IsPrefix("http", "http://a");
    }
    assert [None, Some("http://a")][1..] == [Some("http://a")];
  }

  /** The text of each of the first `count` title elements, stripped; an
      element whose text is empty is skipped, one whose text cannot be read
      is `None` and is skipped too. Whitespace-only text gives an empty title. */
  function TitlesOf(elements: seq<Option<string>>): (r: seq<string>)
    ensures |r| <= |elements|
  {
    if |elements| == 0 then []
    else
      var rest := TitlesOf(elements[1..]);
      match elements[0]
      case Some(text) => if text != "" then [Strip(text)] + rest else rest
      case None => rest
  }

  lemma {:induction false} TitlesOfAppend(elements: seq<Option<string>>, e: Option<string>)
    ensures TitlesOf(elements + [e]) ==
            TitlesOf(elements) + (if e.Some? && e.value != "" then [Strip(e.value)] else [])
    decreases |elements|
  {
    if |elements| == 0 {
      assert ([e])[1..] == [];
    } else {
      assert (elements + [e])[1..] == elements[1..] + [e];
      TitlesOfAppend(elements[1..], e);
    }
  }

  /** Lines 176-183: the loop over the first `count` title elements. */
  method ExtractTitles(elements: seq<Option<string>>, count: int) returns (titles: seq<string>)
    ensures titles == TitlesOf(PyTake(elements, count))
    ensures count >= 0 ==> |titles| <= count
  {
    var capped := PyTake(elements, count);
    titles := [];
    var i := 0;
    while i < |capped|
      invariant 0 <= i <= |capped|
      invariant titles == TitlesOf(capped[..i])
    {
      var e := capped[i];
      TitlesOfAppend(capped[..i], e);
      assert capped[..i + 1] == capped[..i] + [e];
      if e.Some? && e.value != "" {
        titles := titles + [Strip(e.value)];
      }
      i := i + 1;
    }
    assert capped[..i] == capped;
  }

  lemma WhitespaceTitleIsEmpty()
    ensures TitlesOf([Some("  ")]) == [""]
  {
    assert ([Some("  ")])[1..] == [];
    assert LStrip(" ") == "";
    assert LStrip("  ") == "";
  }

  // ---------------------------------------------------------------------
  // The files

  /** `"{i}. {x}"` for each entry, numbered from 1. */
  function Numbered(entries: seq<string>): (r: seq<string>)
    ensures |r| == |entries|
  {
    seq(|entries|, i requires 0 <= i < |entries| => NatToString(i + 1) + ". " + entries[i])
  }

  function LinksHeader(keyword: string, n: nat): seq<string> {
    ["# 小红书搜索: " + keyword, "# 图片数量: " + NatToString(n), ""]
  }

  function TitlesHeader(keyword: string): seq<string> {
    ["# 小红书搜索: " + keyword, ""]
  }

  /** Lines 197-201: the header lines, a blank line, then one numbered line per source. */
  method LinksText(keyword: string, results: seq<string>) returns (text: string)
    ensures text == Terminated(LinksHeader(keyword, |results|) + Numbered(results))
  {
    text := "# 小红书搜索: " + keyword + "\n";
    text := text + "# 图片数量: " + NatToString(|results|) + "\n\n";
    TerminatedThree("# 小红书搜索: " + keyword, "# 图片数量: " + NatToString(|results|), "");
    assert "\n\n" == "\n" + "" + "\n";
    assert LinksHeader(keyword, |results|) + Numbered(results[..0]) == LinksHeader(keyword, |results|);
    var i := 0;
    while i < |results|
      invariant 0 <= i <= |results|
      invariant text == Terminated(LinksHeader(keyword, |results|) + Numbered(results[..i]))
    {
      var line := NatToString(i + 1) + ". " + results[i];
      assert Numbered(results[..i + 1]) == Numbered(results[..i]) + [line];
      assert LinksHeader(keyword, |results|) + Numbered(results[..i + 1])
          == (LinksHeader(keyword, |results|) + Numbered(results[..i])) + [line];
      TerminatedAppend(LinksHeader(keyword, |results|) + Numbered(results[..i]), line);
      text := text + line + "\n";
      i := i + 1;
    }
    assert results[..i] == results;
  }

  /** Lines 206-209: the header line, a blank line, then one numbered line per title. */
  method TitlesText(keyword: string, titles: seq<string>) returns (text: string)
    ensures text == Terminated(TitlesHeader(keyword) + Numbered(titles))
  {
    text := "# 小红书搜索: " + keyword + "\n\n";
    TerminatedTwo("# 小红书搜索: " + keyword, "");
    assert "\n\n" == "\n" + "" + "\n";
    assert TitlesHeader(keyword) + Numbered(titles[..0]) == TitlesHeader(keyword);
    var i := 0;
    while i < |titles|
      invariant 0 <= i <= |titles|
      invariant text == Terminated(TitlesHeader(keyword) + Numbered(titles[..i]))
    {
      var line := NatToString(i + 1) + ". " + titles[i];
      assert Numbered(titles[..i + 1]) == Numbered(titles[..i]) + [line];
      assert TitlesHeader(keyword) + Numbered(titles[..i + 1]) == (TitlesHeader(keyword) + Numbered(titles[..i])) + [line];
      TerminatedAppend(TitlesHeader(keyword) + Numbered(titles[..i]), line);
      text := text + line + "\n";
      i := i + 1;
    }
    assert titles[..i] == titles;
  }

  lemma TerminatedTwo(a: string, b: string)
    ensures Terminated([a, b]) == a + "\n" + b + "\n"
  {
    assert [a, b][1..] == [b];
    assert [b][1..] == [];
    assert Terminated([b]) == b + "\n" + "";
    assert b + "\n" + "" == b + "\n";
  }

  lemma TerminatedThree(a: string, b: string, c: string)
    ensures Terminated([a, b, c]) == a + "\n" + b + "\n" + c + "\n"
  {
    assert [a, b, c][1..] == [b, c];
    TerminatedTwo(b, c);
  }

  lemma NumberedNoNewline(entries: seq<string>)
    requires forall e :: e in entries ==> '\n' !in e
    ensures forall l :: l in Numbered(entries) ==> '\n' !in l
  {
    forall l | l in Numbered(entries) ensures '\n' !in l {
      var i :| 0 <= i < |entries| && Numbered(entries)[i] == l;
      NatToStringNoNewline(i + 1);
      assert entries[i] in entries;
      assert l == NatToString(i + 1) + ". " + entries[i];
    }
  }

  /** Read back line by line, the links file is its two header lines, a blank
      line, then entry `i` is `"{i+1}. {source i}"`, when neither the keyword
      nor any source holds a newline. */
  lemma LinksFileLines(keyword: string, results: seq<string>)
    requires '\n' !in keyword
    requires forall src :: src in results ==> '\n' !in src
    ensures Split(Terminated(LinksHeader(keyword, |results|) + Numbered(results)), '\n')
            == LinksHeader(keyword, |results|) + Numbered(results) + [""]
  {
    NumberedNoNewline(results);
    var lines := LinksHeader(keyword, |results|) + Numbered(results);
    NatToStringNoNewline(|results|);
    forall l | l in lines ensures '\n' !in l {
      if l !in Numbered(results) {
        assert l in LinksHeader(keyword, |results|);
      }
    }
    TerminatedLines(lines);
  }

  // ---------------------------------------------------------------------
  // The crawl

  /** What the crawl saw in the browser. */
  datatype CrawlView = CrawlView(
    firstPage: SearchPage,           // the search page at the first login check
    checks: Checks,                  // the login wait, when that check fails
    imageSources: seq<Option<string>>,
    titleTexts: seq<Option<string>>)

  /** The end of `crawl_xiaohongshu`: the images and titles with the files
      written, or an exception (after whatever files were already written). */
  datatype CrawlEnd = Harvested(images: seq<string>, titles: seq<string>, files: seq<File>) | Raised(files: seq<File>)

  function LinksPath(saveDir: string, keyword: string): string {
    PathJoin(saveDir, [keyword + "_links.txt"])
  }

  function TitlesPath(saveDir: string, keyword: string): string {
    PathJoin(saveDir, [keyword + "_titles.txt"])
  }

  function LoginSucceeds(view: CrawlView): bool {
    Detected(view.firstPage) || WaitOutcome(view.checks).loggedIn
  }

  function LinksFile(saveDir: string, keyword: string, images: seq<string>): File {
    File(LinksPath(saveDir, keyword), Terminated(LinksHeader(keyword, |images|) + Numbered(images)))
  }

  function TitlesFile(saveDir: string, keyword: string, titles: seq<string>): File {
    File(TitlesPath(saveDir, keyword), Terminated(TitlesHeader(keyword) + Numbered(titles)))
  }

  /** `crawl_xiaohongshu` as written: with a save directory and no titles,
      the final print reads `titles_file`, which was never assigned, and the
      call raises after the links file is written. */
  function CrawlAsWritten(keyword: string, count: int, saveDir: Option<string>, view: CrawlView): CrawlEnd {
    if !LoginSucceeds(view) then Raised([])
    else
      var images := ImagesOf(view.imageSources, count);
      var titles := TitlesOf(PyTake(view.titleTexts, count));
      if saveDir.None? || saveDir.value == "" then Harvested(images, titles, [])
      else if titles == [] then Raised([LinksFile(saveDir.value, keyword, images)])
      else Harvested(images, titles, [LinksFile(saveDir.value, keyword, images), TitlesFile(saveDir.value, keyword, titles)])
  }

  /** An input on which the crawl as written raises although login, harvest
      and the links file all succeeded. */
  lemma CrawlAsWrittenRaisesWithoutTitles()
    ensures CrawlAsWritten("lamp", 20, Some("out"),
                           CrawlView(SearchPage({".avatar"}, None), Checks(_ => SearchPage({}, None), _ => 0), [], []))
            == Raised([LinksFile("out", "lamp", [])])
  {
    var view := CrawlView(SearchPage({".avatar"}, None), Checks(_ => SearchPage({}, None), _ => 0), [], []);
    assert LoginSelectors[4] == ".avatar";
    assert Detected(view.firstPage);
    assert ImagesOf([], 20) == [];
    assert PyTake(view.titleTexts, 20) == [];
    assert LoginSucceeds(view);
  }

  /** The crawl as written raises exactly when the login fails, or when a save
      directory is given and no title was harvested. */
  lemma CrawlAsWrittenRaises(keyword: string, count: int, saveDir: Option<string>, view: CrawlView)
    ensures CrawlAsWritten(keyword, count, saveDir, view).Raised? <==>
              !LoginSucceeds(view)
              || (saveDir.Some? && saveDir.value != "" && TitlesOf(PyTake(view.titleTexts, count)) == [])
  {
  }

  /** The crawl with the titles file written only when there are titles, and
      the run completing either way. */
  function Crawl(keyword: string, count: int, saveDir: Option<string>, view: CrawlView): (r: CrawlEnd)
    ensures r.Raised? <==> !LoginSucceeds(view)
    ensures r.Raised? ==> r.files == []
  {
    if !LoginSucceeds(view) then Raised([])
    else
      var images := ImagesOf(view.imageSources, count);
      var titles := TitlesOf(PyTake(view.titleTexts, count));
      if saveDir.None? || saveDir.value == "" then Harvested(images, titles, [])
      else if titles == [] then Harvested(images, titles, [LinksFile(saveDir.value, keyword, images)])
      else Harvested(images, titles, [LinksFile(saveDir.value, keyword, images), TitlesFile(saveDir.value, keyword, titles)])
  }

  /** The corrected crawl writes the links file whenever a save directory is
      given, the titles file exactly when there are titles, and agrees with
      the crawl as written on every input where that one does not raise. */
  lemma CrawlFiles(keyword: string, count: int, saveDir: Option<string>, view: CrawlView)
    requires LoginSucceeds(view)
    ensures var r := Crawl(keyword, count, saveDir, view);
            && r.Harvested?
            && r.images == ImagesOf(view.imageSources, count)
            && r.titles == TitlesOf(PyTake(view.titleTexts, count))
            && (saveDir.None? || saveDir.value == "" <==> r.files == [])
            && (saveDir.Some? && saveDir.value != "" ==>
                  && r.files[0] == LinksFile(saveDir.value, keyword, r.images)
                  && (|r.files| == 2 <==> r.titles != [])
                  && (|r.files| == 2 ==> r.files[1] == TitlesFile(saveDir.value, keyword, r.titles)))
    ensures CrawlAsWritten(keyword, count, saveDir, view).Harvested? ==>
              CrawlAsWritten(keyword, count, saveDir, view) == Crawl(keyword, count, saveDir, view)
  {
  }

  /** The structured result `main` prints; `count` is the number of images. */
  datatype HarvestResult = HarvestResult(keyword: string, images: seq<string>, titles: seq<string>, count: nat)

  /** `main` as written: the printed result, or nothing when the crawl as
      written raised, which includes a save directory with no titles. */
  function MainResultAsWritten(keyword: string, count: int, saveDir: Option<string>, view: CrawlView): (r: Option<HarvestResult>)
    ensures r.Some? <==>
              LoginSucceeds(view)
              && (saveDir.None? || saveDir.value == "" || TitlesOf(PyTake(view.titleTexts, count)) != [])
    ensures r.Some? ==> r.value.keyword == keyword && r.value.count == |r.value.images|
    ensures r.Some? ==> r.value.images == ImagesOf(view.imageSources, count)
    ensures r.Some? ==> r.value.titles == TitlesOf(PyTake(view.titleTexts, count))
  {
    CrawlAsWrittenRaises(keyword, count, saveDir, view);
    match CrawlAsWritten(keyword, count, saveDir, view)
    case Harvested(images, titles, _) => Some(HarvestResult(keyword, images, titles, |images|))
    case Raised(_) => None
  }

  /** `main` over the corrected crawl: the printed result, or nothing when
      the login failed. */
  function MainResult(keyword: string, count: int, saveDir: Option<string>, view: CrawlView): (r: Option<HarvestResult>)
    ensures r.Some? ==> r.value.keyword == keyword && r.value.count == |r.value.images|
    ensures r.Some? ==> r.value.images == ImagesOf(view.imageSources, count)
    ensures r.Some? ==> r.value.titles == TitlesOf(PyTake(view.titleTexts, count))
    ensures r.Some? <==> LoginSucceeds(view)
  {
    match Crawl(keyword, count, saveDir, view)
    case Harvested(images, titles, _) => Some(HarvestResult(keyword, images, titles, |images|))
    case Raised(_) => None
  }

  /** With a save directory and no title elements, a run that logs in
      prints nothing as written, while the corrected `main` prints the harvest. */
  lemma MainAsWrittenPrintsNothingWithoutTitles(keyword: string, count: int, dir: string, view: CrawlView)
    requires LoginSucceeds(view) && dir != "" && view.titleTexts == []
    ensures MainResultAsWritten(keyword, count, Some(dir), view) == None
    ensures MainResult(keyword, count, Some(dir), view).Some?
  {
    assert PyTake(view.titleTexts, count) == [];
  }
}
