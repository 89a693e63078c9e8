# Skill scripts: publish, search and PDF post-processing

This project models the deterministic logic of six command-line scripts from
a collection of assistant skills:

- the xiaohongshu-creator note publisher (`publish.py`);
- the xiaohongshu-search harvester (`search.py`);
- four PDF scripts: clause search, references extraction, text extraction
  and form-field extraction.

The browser and the PDF library are replaced by what they would have
answered. Selector resolution is a set of selectors that resolve within their
timeout. Cookie polls and login checks are functions from the poll index.
A document is the sequence of its page texts, or of its pages' widget lists.
A command line is the whole `sys.argv`, and file existence is a set of paths.
What the publisher does to the browser is recorded as a sequence of actions,
so that "the context is closed on every path" can be stated.

Modules:

- `Strings` (strings.dfy): the Python `str` operations the scripts use.
  This covers `lower`, `isspace`, `strip`, `split`, `join`, `in` on strings,
  `str(n)` for naturals and Windows path joining.
- `Cascade` (cascade.dfy): ordered candidate lists, where the first to
  resolve wins.
- `Publish` (publish.dfy): resolving the browser and its profile, the
  launch-failure classification, the cookie login test, the login wait, the
  field cascades, the submit button, the four outcomes, the status command and
  the command-line dispatch.
- `Search` (search.dfy): resolving the user-data directory, the
  layered login detector, the time-bounded login wait, image and title
  harvesting, the two text files and the printed result.
- `Script` (script.dfy): what the PDF scripts share. That is the checks made
  before the document is opened, the page markers and `"".join`.
- `SearchClauses`, `ExtractReferences`, `ExtractText` and `ExtractFormFields`
  (pdf_clauses.dfy, pdf_references.dfy, pdf_text.dfy, pdf_form_fields.dfy):
  each script's `main`.

The loops of the source are methods with `while` loops. Each is proved equal
to a recursive specification function, and the properties are proved about
that function as lemmas.

## Model

| member | source | states |
|---|---|---|
| Strings.LowerFolds | resources/skills/pdf-legal/scripts/search_clauses.py:28 | Folding leaves no capital letter. Each capital becomes its small letter, and every other character is kept. |
| Strings.LowerIdempotent | resources/skills/pdf-legal/scripts/search_clauses.py:28 | Folding twice is folding once. |
| Strings.Find | resources/skills/xiaohongshu-search/scripts/search.py:78 | The leftmost occurrence: the substring sits at the index, and no earlier index starts one; `None` means no index does. |
| Strings.ContainsIffFind | resources/skills/xiaohongshu-search/scripts/search.py:78 | `sub in s` holds exactly when a first occurrence exists. |
| Strings.ContainsAt | resources/skills/xiaohongshu-search/scripts/search.py:163 | `sub in s` holds exactly when `sub` is a prefix of some suffix of `s`. |
| Strings.ContainsEmpty | resources/skills/pdf-legal/scripts/search_clauses.py:28 | The empty string is in every string. |
| Strings.LStripShape | resources/skills/pdf-legal/scripts/search_clauses.py:35 | `lstrip` is a suffix whose removed prefix is all whitespace and which does not start with whitespace. |
| Strings.RStripShape | resources/skills/pdf-legal/scripts/search_clauses.py:35 | `rstrip` is the mirror image: a prefix, with only whitespace removed and no trailing whitespace left. |
| Strings.StripShape | resources/skills/pdf-legal/scripts/search_clauses.py:35 | `strip` is a slice of its input with whitespace at neither end. |
| Strings.StripEmptyIffAllSpace | resources/skills/pdf-academic/scripts/extract_references.py:43 | The stripped text is empty exactly when the text is all whitespace. |
| Strings.Split | resources/skills/pdf-legal/scripts/search_clauses.py:33 | A split always has at least one piece. |
| Strings.SplitPiecesFree | resources/skills/pdf-legal/scripts/search_clauses.py:33 | No piece of a split holds the separator. |
| Strings.JoinSplit | resources/skills/xiaohongshu-creator/scripts/publish.py:254 | Joining the pieces of a split with the separator gives the original string back. |
| Strings.SplitJoin | resources/skills/xiaohongshu-creator/scripts/publish.py:254 | Splitting a join gives the pieces back when no piece holds the separator. |
| Strings.TerminatedIsJoin | resources/skills/xiaohongshu-search/scripts/search.py:197-201 | Writing each line followed by a newline is joining the lines and an empty last piece with newlines. |
| Strings.TerminatedAppend | resources/skills/xiaohongshu-search/scripts/search.py:200-201 | One more written line adds that line and its newline at the end. |
| Strings.TerminatedLines | resources/skills/xiaohongshu-search/scripts/search.py:197-201 | A file written line by line splits back into its lines and an empty tail, when no line holds a newline. |
| Strings.NatToString | resources/skills/pdf-legal/scripts/search_clauses.py:37 | `str(n)` is never empty. |
| Strings.NatToStringValue | resources/skills/pdf-legal/scripts/search_clauses.py:37 | `str(n)` is all decimal digits, has no leading zero (a leading `0` means the number is 0), and reads back as `n`. |
| Strings.NatToStringInjective | resources/skills/pdf-legal/scripts/search_clauses.py:45 | Different numbers print differently. |
| Strings.NatToStringNoNewline | resources/skills/xiaohongshu-search/scripts/search.py:199 | A printed number never holds a newline, so it cannot break a line. |
| Strings.PathJoin | resources/skills/xiaohongshu-creator/scripts/publish.py:26-38 | A joined path is non-empty whenever its parts are. |
| Cascade.FirstIn | resources/skills/xiaohongshu-creator/scripts/publish.py:142-148 | The chosen candidate resolves and no earlier one does; `None` means that none resolves. |
| Publish.SystemBrowser | resources/skills/xiaohongshu-creator/scripts/publish.py:20-42 | Edge (`msedge`) when an Edge executable (Program Files (x86), then Program Files) and Edge's profile exist. Otherwise Chrome when one of its three executables and its profile exist. Otherwise `("", "")`. |
| Publish.SystemBrowserEmptyIffNone | resources/skills/xiaohongshu-creator/scripts/publish.py:42 | The resolved directory is empty exactly when neither browser is usable. |
| Publish.LaunchContext | resources/skills/xiaohongshu-creator/scripts/publish.py:45-69 | Three cases, each as an if-and-only-if. The launch aborts with "no browser" exactly when neither browser is usable. It aborts with "profile locked" exactly when a browser is usable and the failure message is a lock message. It launches exactly when a browser is usable and nothing failed, and then with the resolved directory and channel. |
| Publish.BlockedReadsAsLock | resources/skills/xiaohongshu-creator/scripts/publish.py:64-66 | "Access BLOCKED by policy" is classified as a lock, because the test is the substring "lock" after lower-casing. |
| Publish.LoggedInIff | resources/skills/xiaohongshu-creator/scripts/publish.py:72-80 | Logged in exactly when some cookie's name is one of `a1`, `web_session`, `webId`, `gid`. |
| Publish.CookieNamesAreCaseSensitive | resources/skills/xiaohongshu-creator/scripts/publish.py:75-76 | Cookies named `WEBID` and `GID` do not count. |
| Publish.FirstHit | resources/skills/xiaohongshu-creator/scripts/publish.py:92-96 | The first index in range whose test holds, with none before it; `None` means none in range holds. |
| Publish.Polls | resources/skills/xiaohongshu-creator/scripts/publish.py:92-94 | The polls never close the context. |
| Publish.WaitForLogin | resources/skills/xiaohongshu-creator/scripts/publish.py:83-99 | The wait ends at the first positive poll, after 1 to 100 polls with all earlier polls negative. It times out exactly when all 100 polls are negative. The actions are: open the home page, then one sleep and one cookie read per poll, then closing the page only on a timeout. |
| Publish.FirstPositivePollEndsWait | resources/skills/xiaohongshu-creator/scripts/publish.py:92-96 | When the first positive poll is the k-th, the wait returns after exactly k polls and 2k actions. |
| Publish.PollsLength | resources/skills/xiaohongshu-creator/scripts/publish.py:92-94 | k polls are 2k actions, each a 3000 ms sleep then a cookie read. |
| Publish.Waits | resources/skills/xiaohongshu-creator/scripts/publish.py:144 | One selector wait per candidate tried: wait k is for candidate k, with the given timeout. |
| Publish.Locate | resources/skills/xiaohongshu-creator/scripts/publish.py:141-148 | A candidate is found exactly when one resolves, and it is the first in list order. Exactly the candidates up to it are waited for, each with its timeout, and later ones are not tried. |
| Publish.SubmitButton | resources/skills/xiaohongshu-creator/scripts/publish.py:179-188 | There is no button exactly when the 5000 ms wait failed or the list is empty. A chosen button is one the query returned, chosen only after the wait succeeded, and it is the last in the list. |
| Publish.OutcomeMapping | resources/skills/xiaohongshu-creator/scripts/publish.py:112-208 | Each of `not_logged_in`, `published`, `ready_to_confirm` and `ready` comes about exactly under the observations that produce it. |
| Publish.OutcomeCarriesTitle | resources/skills/xiaohongshu-creator/scripts/publish.py:200-208 | Every outcome but `not_logged_in` carries the given title. The run exits exactly when the launch aborted. |
| Publish.FillTitle | resources/skills/xiaohongshu-creator/scripts/publish.py:139-154 | The title field is the first resolving title candidate, and it is filled with the title when there is one. The field is skipped otherwise, and the context is not closed. |
| Publish.FillBody | resources/skills/xiaohongshu-creator/scripts/publish.py:156-174 | The body field is the first resolving body candidate, and the content is typed with a 20 ms delay when there is one. |
| Publish.Submit | resources/skills/xiaohongshu-creator/scripts/publish.py:176-208 | The outcome is the page's outcome, and the chosen button is clicked when there is one. |
| Publish.FillAndSubmit | resources/skills/xiaohongshu-creator/scripts/publish.py:122-208 | After the navigation: the form filled as the cascades choose, the fills, typing and click in the trace, and the outcome as the page determines it. |
| Publish.InConcat4 | resources/skills/xiaohongshu-creator/scripts/publish.py:122-208 | An action is in four concatenated traces exactly when it is in one of them. |
| Publish.EnsureLoggedIn | resources/skills/xiaohongshu-creator/scripts/publish.py:113-120 | The run gets past login exactly when it is logged in at the start or the wait succeeds. |
| Publish.ClosedOnce | resources/skills/xiaohongshu-creator/scripts/publish.py:210-211 | A trace that ends in the `finally` close holds that close once, as its last action. |
| Publish.PublishContent | resources/skills/xiaohongshu-creator/scripts/publish.py:107-211 | The result is the outcome mapping, whatever `images` and `tags` are. A launched context is closed exactly once, as the last action. An aborted launch does nothing. Each filled field and the clicked button appear in the trace. |
| Publish.CheckStatus | resources/skills/xiaohongshu-creator/scripts/publish.py:214-231 | An aborted launch exits 1. A launched session returns `logged_in` exactly when login was seen at the start or during the wait, and `not_logged_in` exactly when it was not. The context is closed last. Logged in at the start, the trace is one cookie read and the close. |
| Publish.SplitList | resources/skills/xiaohongshu-creator/scripts/publish.py:254-255 | A list is present exactly for a given, non-empty option. Its pieces hold no comma and join back into the option. |
| Publish.DispatchCommand | resources/skills/xiaohongshu-creator/scripts/publish.py:245-277 | `status` runs the status check. `publish` and `schedule` exit 1 unless both title and content are non-empty. `publish` never sleeps, and `schedule` sleeps its delay, 0 when absent. An unknown command exits 1. |
| Search.DefaultUserDataDir | resources/skills/xiaohongshu-search/scripts/search.py:14-28 | Nothing when LOCALAPPDATA is unset or empty. Otherwise Chrome's profile before Edge's, and nothing when neither exists. A returned directory exists. |
| Search.CheckLogin | resources/skills/xiaohongshu-search/scripts/search.py:47-84 | The answer is "some of the 12 selectors resolves, or the HTML holds one of the 6 indicators", and any resolving selector suffices. The `timeout` argument is ignored: 2000 ms per selector tried. |
| Search.WaitFromBounds | resources/skills/xiaohongshu-search/scripts/search.py:96-103 | From any check onwards, a reported login is the first positive check, and all checks before it were negative. A timeout happens only at the deadline, overshooting it by less than the last check and one sleep. The wait checks at least once before the deadline, and the 2-second sleeps before the last check end before the deadline. |
| Search.WaitFromTiming | resources/skills/xiaohongshu-search/scripts/search.py:95-103 | Every check the wait makes starts before the deadline, counting the earlier checks' durations and sleeps. A login ends the wait when its check ends. A timeout ends it when the next check would have started. |
| Search.CheckAt | resources/skills/xiaohongshu-search/scripts/search.py:97 | One check: its answer and its duration as the page determines them. |
| Search.WaitForLogin | resources/skills/xiaohongshu-search/scripts/search.py:87-103 | The loop, check before sleep, ends as the recursive definition of the wait says. |
| Search.WaitBounds | resources/skills/xiaohongshu-search/scripts/search.py:96-103 | The wait checks between 1 and 150 times. It reports a login exactly when one of its checks saw one, and the first such check ends it. A timeout has used at least 300 s. |
| Search.PyTake | resources/skills/xiaohongshu-search/scripts/search.py:160 | Python's `xs[:n]`: a prefix, with the length Python gives for non-negative and negative `n`. |
| Search.NormaliseSourceSettles | resources/skills/xiaohongshu-search/scripts/search.py:165-166 | The source stays a suffix of the result, and gains `https:` in front exactly when it starts with `//`. No result starts with `//`, so normalising is done once for good. |
| Search.KeptSources | resources/skills/xiaohongshu-search/scripts/search.py:160-167 | Never more sources than elements. |
| Search.KeptSourcesAppend | resources/skills/xiaohongshu-search/scripts/search.py:160-167 | One more element adds its normalised source exactly when it is kept. |
| Search.ExtractImages | resources/skills/xiaohongshu-search/scripts/search.py:159-170 | The loop harvests the sources of the first `count` elements. There are at most `count` of them, and at most as many as there are elements. |
| Search.TakenShift | resources/skills/xiaohongshu-search/scripts/search.py:160-167 | Positions in the tail are positions in the whole list, one further on. |
| Search.TakenCons | resources/skills/xiaohongshu-search/scripts/search.py:160-167 | A kept first element adds its source at position 0. |
| Search.KeptSourcesOrder | resources/skills/xiaohongshu-search/scripts/search.py:160-167 | The harvest keeps element order: each source comes from a kept element at strictly increasing positions. |
| Search.FtpSourceIsKept | resources/skills/xiaohongshu-search/scripts/search.py:163 | `ftp://x` is kept unchanged, since the test looks for `//` anywhere. |
| Search.ProtocolRelativeSource | resources/skills/xiaohongshu-search/scripts/search.py:165-166 | `//img.example.com/a.jpg` becomes `https://img.example.com/a.jpg`. |
| Search.CapBeforeFilter | resources/skills/xiaohongshu-search/scripts/search.py:160-163 | With `count` 1, an unusable first element leaves no image, though a valid one follows. |
| Search.TitlesOf | resources/skills/xiaohongshu-search/scripts/search.py:176-183 | Never more titles than elements. |
| Search.TitlesOfAppend | resources/skills/xiaohongshu-search/scripts/search.py:177-181 | One more element adds its stripped text exactly when the text is non-empty. |
| Search.ExtractTitles | resources/skills/xiaohongshu-search/scripts/search.py:176-183 | The loop gives the titles of the first `count` elements, at most `count` of them. |
| Search.WhitespaceTitleIsEmpty | resources/skills/xiaohongshu-search/scripts/search.py:180-181 | A whitespace-only text contributes an empty title. |
| Search.LinksText | resources/skills/xiaohongshu-search/scripts/search.py:197-201 | The links file: the keyword line, the count line and a blank line, then `i. src` per source, each line ending in a newline. |
| Search.TitlesText | resources/skills/xiaohongshu-search/scripts/search.py:205-209 | The titles file: the keyword line and a blank line, then `i. title` per title. |
| Search.NumberedNoNewline | resources/skills/xiaohongshu-search/scripts/search.py:201 | Numbered entries without newlines give lines without newlines. |
| Search.LinksFileLines | resources/skills/xiaohongshu-search/scripts/search.py:196-201 | Read back line by line, the links file is its two header lines, a blank line, one line per source and an empty tail. |
| Search.CrawlAsWrittenRaisesWithoutTitles | resources/skills/xiaohongshu-search/scripts/search.py:204-212 | With a save directory and no titles, the crawl as written raises even though the login and the links file succeeded. |
| Search.CrawlAsWrittenRaises | resources/skills/xiaohongshu-search/scripts/search.py:136-212 | The crawl as written raises exactly when the login fails, or when a save directory is given and no title was harvested. |
| Search.Crawl | resources/skills/xiaohongshu-search/scripts/search.py:106-217 | The corrected crawl raises exactly when the login fails, and then it has written nothing. |
| Search.CrawlFiles | resources/skills/xiaohongshu-search/scripts/search.py:186-214 | After a successful login, the corrected crawl returns the harvested images and titles. It writes the links file exactly when a save directory is given, and the titles file exactly when there are titles. It agrees with the crawl as written wherever that one returns. |
| Search.MainResultAsWritten | resources/skills/xiaohongshu-search/scripts/search.py:220-243 | As written, a result is printed exactly when the login succeeds and there is no save directory or some title was harvested. It carries the keyword, the harvested images and titles, and `count` equal to the number of images. |
| Search.MainResult | resources/skills/xiaohongshu-search/scripts/search.py:220-243 | Over the corrected crawl, a result is printed exactly when the login succeeds. It carries the keyword, the harvested images and titles, and `count` equal to the number of images. |
| Search.MainAsWrittenPrintsNothingWithoutTitles | resources/skills/xiaohongshu-search/scripts/search.py:204-243 | With a save directory and no title elements, a run that logs in prints nothing as written, while the corrected `main` prints its result. |
| Script.Preflight | resources/skills/pdf-legal/scripts/search_clauses.py:9-25 | The script goes on exactly when there are enough arguments, the path is a file and PyMuPDF imports. Every other case exits 1 with a message, and too few arguments print the usage. |
| Script.ConcatIsJoin | resources/skills/pdf-summary/scripts/extract_text.py:32 | `"".join(parts)` is the join with the empty separator. |
| Script.ConcatCons | resources/skills/pdf-summary/scripts/extract_text.py:32 | The concatenation is the first part followed by the rest. |
| Script.ConcatAt | resources/skills/pdf-summary/scripts/extract_text.py:32 | Each part appears right after the parts before it. |
| Script.ConcatPrefix | resources/skills/pdf-summary/scripts/extract_text.py:32 | The first parts' concatenation is a prefix of the whole. |
| SearchClauses.SearchPage | resources/skills/pdf-legal/scripts/search_clauses.py:32-38 | One page's line loop gives that page's hits. |
| SearchClauses.Search | resources/skills/pdf-legal/scripts/search_clauses.py:29-38 | The page loop gives the document's hits, and `total_matches` is their number. |
| SearchClauses.LineHitsSound | resources/skills/pdf-legal/scripts/search_clauses.py:33-37 | Every hit on a page is a 1-based line of it that matches a keyword and is not blank, reported stripped. |
| SearchClauses.LineHitsComplete | resources/skills/pdf-legal/scripts/search_clauses.py:33-37 | Every such line of the page is a hit. |
| SearchClauses.LineHitsOrdered | resources/skills/pdf-legal/scripts/search_clauses.py:33 | A page's hits come in strictly increasing line order. |
| SearchClauses.HitsSound | resources/skills/pdf-legal/scripts/search_clauses.py:31-37 | Every hit is on a 1-based page, and its line matches, is not blank and is reported stripped. |
| SearchClauses.HitsComplete | resources/skills/pdf-legal/scripts/search_clauses.py:31-37 | Every matching, non-blank line of every page is reported, with page and line numbers restarting per page. |
| SearchClauses.HitsOrdered | resources/skills/pdf-legal/scripts/search_clauses.py:31-38 | Hits come in document order: by page, then by line. |
| SearchClauses.EmptyKeywordMatchesAll | resources/skills/pdf-legal/scripts/search_clauses.py:28 | An empty keyword makes every line match. |
| SearchClauses.MatchIgnoresCase | resources/skills/pdf-legal/scripts/search_clauses.py:28 | A match is unchanged by folding the case of the line and the keyword. |
| SearchClauses.Run | resources/skills/pdf-legal/scripts/search_clauses.py:8-45 | Exit 0 exactly when there is a path and a keyword, the path is a file and PyMuPDF imports. It then prints one line per hit plus the summary. |
| SearchClauses.RunSummary | resources/skills/pdf-legal/scripts/search_clauses.py:37-45 | The hit lines come first. The summary starts "No matches found for: " exactly when there is no hit. Otherwise it gives the number of hits and the keywords joined by ", ". |
| ExtractReferences.FirstWord | resources/skills/pdf-academic/scripts/extract_references.py:34 | The first position, in any letter case, where either word starts. No earlier position starts one, and `None` means none does. |
| ExtractReferences.WordFrom | resources/skills/pdf-academic/scripts/extract_references.py:34 | The same search started at a given position. |
| ExtractReferences.HeadingHasWord | resources/skills/pdf-academic/scripts/extract_references.py:31-35 | A heading page always has a first occurrence, at or before the heading's word. |
| ExtractReferences.HeadingFound | resources/skills/pdf-academic/scripts/extract_references.py:31-35 | On a heading page the second search always succeeds. |
| ExtractReferences.LineIsHeading | resources/skills/pdf-academic/scripts/extract_references.py:31 | Either word, in any case, on a line of its own makes a heading. |
| ExtractReferences.Scan | resources/skills/pdf-academic/scripts/extract_references.py:31-34 | The first occurrence lies within the page. |
| ExtractReferences.ScanAt | resources/skills/pdf-academic/scripts/extract_references.py:28-34 | The scan of page p is page p's scan. |
| ExtractReferences.ScansFit | resources/skills/pdf-academic/scripts/extract_references.py:34-37 | Every first occurrence lies within its page. |
| ExtractReferences.CaptureUpToWith | resources/skills/pdf-academic/scripts/extract_references.py:28-39 | Scanning pages as they come gives the same capture as scanning them all first. |
| ExtractReferences.CapturePage | resources/skills/pdf-academic/scripts/extract_references.py:29-39 | The loop body updates the text and the flag as one step of the capture. |
| ExtractReferences.Collect | resources/skills/pdf-academic/scripts/extract_references.py:24-41 | The page loop gives the captured text of the whole document. |
| ExtractReferences.CapturingIff | resources/skills/pdf-academic/scripts/extract_references.py:30-32 | Capturing has begun exactly when some page so far has a heading, and until then the text is empty. |
| ExtractReferences.CaptureShape | resources/skills/pdf-academic/scripts/extract_references.py:34-39 | After the first heading page, the text is that page's marker with no leading newline and its text from the first occurrence on. Then comes every later page, whole, after a newline and its marker. Capturing never resets. |
| ExtractReferences.FirstHeading | resources/skills/pdf-academic/scripts/extract_references.py:30-32 | The first page with a heading. |
| ExtractReferences.ReferencesWithoutHeading | resources/skills/pdf-academic/scripts/extract_references.py:28-32 | Without a heading page the text stays empty. |
| ExtractReferences.ReferencesFromHeading | resources/skills/pdf-academic/scripts/extract_references.py:28-39 | With one, the text is the first heading page's marker and text from the first occurrence, then each later page's block. |
| ExtractReferences.MarkedNotBlank | resources/skills/pdf-academic/scripts/extract_references.py:36-44 | Text that starts with a page marker is not blank. |
| ExtractReferences.NoSectionIffNoHeading | resources/skills/pdf-academic/scripts/extract_references.py:43 | The text is blank exactly when no page has a heading. |
| ExtractReferences.Run | resources/skills/pdf-academic/scripts/extract_references.py:8-47 | Exit 0 exactly when there is a path to a file and PyMuPDF imports. It then prints exactly one thing. |
| ExtractReferences.RunOutcome | resources/skills/pdf-academic/scripts/extract_references.py:43-47 | The notice is printed exactly when no page has a heading, and the references text otherwise. |
| ExtractText.OutputPath | resources/skills/pdf-summary/scripts/extract_text.py:23 | The second argument when given, otherwise the PDF path with `.txt` added. The output is the PDF itself only when the second argument names it. |
| ExtractText.FullText | resources/skills/pdf-summary/scripts/extract_text.py:26-32 | The loop and join give the page blocks of pages 1..N, concatenated in page order. |
| ExtractText.FullTextAppend | resources/skills/pdf-summary/scripts/extract_text.py:27-29 | One more page adds its block at the end and changes nothing before it. |
| ExtractText.PageVerbatim | resources/skills/pdf-summary/scripts/extract_text.py:28-29 | Each page's text appears verbatim in the file, right after its marker. |
| ExtractText.FullTextLength | resources/skills/pdf-summary/scripts/extract_text.py:26-32 | The file's length is that of all pages plus one marker each, so nothing is trimmed or dropped. |
| ExtractText.Run | resources/skills/pdf-summary/scripts/extract_text.py:7-36 | A file is written exactly when the run exits 0, which is exactly when the checks pass. The file is at the output path and holds the page blocks in page order. The message names the page count and the path written. |
| ExtractText.RunWrites | resources/skills/pdf-summary/scripts/extract_text.py:23-36 | A run that passes the checks writes to the second argument, or next to the PDF when there is none. The file holds the page blocks in page order, and its length is that of all pages and their markers. |
| ExtractText.RunAsWritten | resources/skills/pdf-summary/scripts/extract_text.py:25-36 | As written, every run exits 1. The file is written exactly when the checks pass. |
| ExtractText.RunAsWrittenFailsAfterWriting | resources/skills/pdf-summary/scripts/extract_text.py:30-36 | A run past the checks writes the same file as the corrected run, then prints nothing and exits 1. The corrected run exits 0. |
| ExtractFormFields.OrEmpty | resources/skills/pdf-data-extract/scripts/extract_form_fields.py:37 | `value or ""` turns a falsy value into "" and keeps any other. |
| ExtractFormFields.Collect | resources/skills/pdf-data-extract/scripts/extract_form_fields.py:27-39 | The nested page and widget loop gives the flattened fields. |
| ExtractFormFields.FieldCount | resources/skills/pdf-data-extract/scripts/extract_form_fields.py:29-38 | One field per widget, so there are none exactly when no page has a widget. |
| ExtractFormFields.FieldPosition | resources/skills/pdf-data-extract/scripts/extract_form_fields.py:29-38 | Widget i of page p lands after the widgets of all earlier pages, with page number p+1. |
| ExtractFormFields.WidgetCountGrows | resources/skills/pdf-data-extract/scripts/extract_form_fields.py:29-38 | More pages never mean fewer widgets. |
| ExtractFormFields.FieldsSound | resources/skills/pdf-data-extract/scripts/extract_form_fields.py:29-38 | Every field is a widget of its 1-based page, and its value is never missing or false. |
| ExtractFormFields.PathCanSwitchJson | resources/skills/pdf-data-extract/scripts/extract_form_fields.py:14 | `"--json" in sys.argv` also looks at the PDF path, so a path `--json` turns JSON mode on. |
| ExtractFormFields.Report | resources/skills/pdf-data-extract/scripts/extract_form_fields.py:48-49 | The text-mode print loop gives one line per field, in field order. |
| ExtractFormFields.Run | resources/skills/pdf-data-extract/scripts/extract_form_fields.py:8-51 | Exit 0 exactly when there is a path to a file and PyMuPDF imports. |
| ExtractFormFields.RunOutcome | resources/skills/pdf-data-extract/scripts/extract_form_fields.py:41-51 | The notice, with no total, is printed exactly when no page has a widget. Otherwise the run ends with a total counting every widget. Before it comes the JSON dump of all fields in JSON mode, or one `[Page p] name (type): value` line per field in text mode. |

## Left out

- Playwright itself (launching, navigation, `wait_for_selector`, clicks, fills, typing, scrolling, cookie retrieval) is replaced by oracle inputs. The five scroll-and-sleep steps of the crawl (search.py:147-149) are not modelled.
- The search script's fallback to a temporary browser when no profile exists (search.py:115-124) is not modelled; the crawl behaves the same either way. `browser.close()` in its `finally` is not traced.
- Wall-clock time and sleeps: the search wait takes each check's duration as an input (2000 ms per selector tried, plus a given extra), and the publish wait counts polls.
- The message box and console printing in `search.py` and `publish.py` are not modelled. Of the PDF scripts' prints, the lines are modelled as strings. For form fields, JSON output is the placeholder `JsonDump(fields)`, because JSON serialisation is not modelled.
- Strings.Lower: folds ASCII letters only, not Python's Unicode `lower()`/`re.IGNORECASE`.
- Strings.IsSpace follows `str.isspace()` and `\s` below code point 128 only.
- ExtractReferences.HasHeading: the multi-line regex is stated positionally: start of text or after a newline, whitespace, the word, whitespace, then end of text or a newline. No regex engine is modelled.
- Python's `\s` can span a newline, so the modelled heading may also cover a word with blank lines around it, as the regex does. `$` also matching before a final newline is covered, since the newline is whitespace.
- Search.CheckLogin: the outer `except` returning False is modelled only for `page.content()` raising (`html == None`). Selector waits that raise are the "does not resolve" case.
- ExtractText.RunAsWritten: that reading `doc.page_count` on a closed document raises is PyMuPDF behaviour (its closed-document guard), not something the script shows.
- Windows path normalisation (`Path` collapsing separators, drive letters) is not modelled. A path is its parts joined with a backslash, and an empty base is dropped.
- `argparse` parsing, `--count` conversion errors and `--help` are not modelled. Publish's dispatch starts from the parsed arguments.
- Widget attributes other than name, type string and value (`None` names, numeric values) are not modelled. A value is none, a string or a boolean.
- PyMuPDF's page parsing and `page.widgets()` are inputs. The `if widgets:` test on a generator is always true, and looping over an empty list adds nothing, so it is not modelled separately.
- extract_tables.py is not part of this model: its whole job is delegated to tabula and pandas.

## Findings

| source | as written | input that shows it | evidently intended | confidence | as-written member | corrected member |
|---|---|---|---|---|---|---|
| resources/skills/xiaohongshu-search/scripts/search.py:204-212 | `titles_file` is assigned only inside `if titles:`, but the second save message always prints it. With a save directory and no titles, the crawl raises `UnboundLocalError` after writing the links file, and `main` never prints its result. | keyword `lamp`, save directory `out`, a first page on which `.avatar` resolves, no image elements and no title elements | Print the titles message only when the titles file was written, and return the harvest | high, not executed | Search.CrawlAsWrittenRaisesWithoutTitles | Search.CrawlFiles |
| resources/skills/pdf-summary/scripts/extract_text.py:30-36 | `doc.close()` comes before the final message reads `doc.page_count`, and PyMuPDF refuses access to a closed document. So every run that opens the document fails with an exception after writing the file, and prints no message. | any existing PDF, e.g. `argv = ["extract_text.py", "a.pdf"]` with `a.pdf` a file | Read the page count before closing, or print the number of pages extracted | medium (depends on PyMuPDF's closed-document guard), not executed | ExtractText.RunAsWrittenFailsAfterWriting | ExtractText.Run |
