/** `extract_references.py`: from the first page with a "References" or
    "Bibliography" heading line to the end of the document. */
module ExtractReferences {
  import opened Strings
  import opened Script

  const Usage := ["Usage: python extract_references.py <pdf_path>"]
  const NoSection := "No 'References' or 'Bibliography' section found."

  predicate IsWord(s: string) {
    s == "references" || s == "bibliography"
  }

  /** `^\s*(references|bibliography)\s*$`, case-insensitive and multi-line,
      matches `text[i..j]` with the word at `text[a..b]`: the match starts at
      the start of a line and ends at the end of one, and has only white
      space (newlines included) around the word. */
  predicate HeadingAt(text: string, i: nat, a: nat, b: nat, j: nat) {
    && i <= a <= b <= j <= |text|
    && (i == 0 || text[i - 1] == '\n')
    && AllSpace(text[i..a])
    && IsWord(Lower(text[a..b]))
    && AllSpace(text[b..j])
    && (j == |text| || text[j] == '\n')
  }

  /** The page has a heading: the multi-line search finds a match. */
  predicate HasHeading(text: string) {
    exists i, a, b, j | 0 <= i <= |text| && i <= a <= |text| && a <= b <= |text| && b <= j <= |text|
      :: HeadingAt(text, i, a, b, j)
  }

  /** One of the two words starts at `k`, in any letter case. */
  predicate WordAt(text: string, k: nat) {
    k <= |text| && (IsPrefix("references", Lower(text[k..])) || IsPrefix("bibliography", Lower(text[k..])))
  }

  /** `re.search(r'(?i)(references|bibliography)', text)`: where the first
      occurrence of either word starts. */
  function FirstWord(text: string): (r: Option<nat>)
    ensures r.Some? ==> WordAt(text, r.value)
    ensures r.Some? ==> forall k :: 0 <= k < r.value ==> !WordAt(text, k)
    ensures r.None? ==> forall k :: 0 <= k <= |text| ==> !WordAt(text, k)
  {
    WordFrom(text, 0)
  }

  /** The search tried at `from`, then further right. */
  function WordFrom(text: string, from: nat): (r: Option<nat>)
    requires from <= |text|
    ensures r.Some? ==> from <= r.value && WordAt(text, r.value)
    ensures r.Some? ==> forall k :: from <= k < r.value ==> !WordAt(text, k)
    ensures r.None? ==> forall k :: from <= k <= |text| ==> !WordAt(text, k)
    decreases |text| - from
  {
    if WordAt(text, from) then Some(from)
    else if from == |text| then None
    else WordFrom(text, from + 1)
  }

  /** A heading page always has a first occurrence, at or before the heading's word. */
  lemma HeadingHasWord(text: string, i: nat, a: nat, b: nat, j: nat)
    requires HeadingAt(text, i, a, b, j)
    ensures FirstWord(text).Some? && FirstWord(text).value <= a
  {
    assert Lower(text[a..])[..b - a] == Lower(text[a..b]);
    assert WordAt(text, a);
  }

  lemma HeadingFound(text: string)
    requires HasHeading(text)
    ensures FirstWord(text).Some?
  {
    var i, a, b, j :| 0 <= i <= |text| && i <= a <= |text| && a <= b <= |text| && b <= j <= |text|
                      && HeadingAt(text, i, a, b, j);
    HeadingHasWord(text, i, a, b, j);
  }

  /** Either word on a line of its own is a heading, whatever its letter
      case and whatever comes before and after that line. */
  lemma LineIsHeading(before: string, word: string, after: string)
    requires IsWord(Lower(word))
    ensures HasHeading(before + "\n" + word + "\n" + after)
  {
    var text := before + "\n" + word + "\n" + after;
    var i := |before| + 1;
    var b := i + |word|;
    assert text[i..i] == [] && text[b..b] == [];
    assert text[i..b] == word;
    assert HeadingAt(text, i, i, b, b);
  }

  /** What the page loop looks at on one page: whether the multi-line
      search finds a heading, and where the first word starts. */
  datatype PageScan = PageScan(heading: bool, first: Option<nat>)

  function Scan(text: string): (r: PageScan)
    ensures r.first.Some? ==> r.first.value <= |text|
  {
    PageScan(HasHeading(text), FirstWord(text))
  }

  /** Every page scanned, in page order. */
  function Scans(pages: seq<string>): (r: seq<PageScan>)
    ensures |r| == |pages|
  {
    if |pages| == 0 then [] else Scans(pages[..|pages| - 1]) + [Scan(pages[|pages| - 1])]
  }

  lemma {:induction false} ScanAt(pages: seq<string>, p: nat)
    requires p < |pages|
    ensures Scans(pages)[p] == Scan(pages[p])
    decreases |pages|
  {
    if p < |pages| - 1 {
      var init := pages[..|pages| - 1];
      ScanAt(init, p);
      assert init[p] == pages[p];
    }
  }

  /** Every word position lies within its page. */
  predicate Fits(pages: seq<string>, scans: seq<PageScan>) {
    && |scans| == |pages|
    && forall p :: 0 <= p < |pages| && scans[p].first.Some? ==> scans[p].first.value <= |pages[p]|
  }

  lemma ScansFit(pages: seq<string>)
    ensures Fits(pages, Scans(pages))
  {
    forall p | 0 <= p < |pages| ensures Scans(pages)[p] == Scan(pages[p]) {
      ScanAt(pages, p);
    }
  }

  /** The captured text after `n` pages, and whether capturing has begun. */
  datatype Capture = Capture(refs: string, capturing: bool)

  /** The page loop over the first `n` pages: before a heading page nothing
      is kept; the heading page contributes its marker and its text from the
      first occurrence of either word; every later page contributes its
      marker block whole. */
  function CaptureWith(pages: seq<string>, scans: seq<PageScan>, n: nat): Capture
    requires Fits(pages, scans) && n <= |pages|
  {
    if n == 0 then Capture("", false)
    else Step(CaptureWith(pages, scans, n - 1), n, pages[n - 1], scans[n - 1])
  }

  /** What page `n` (1-based) with text `text` does to the capture so far. */
  function Step(c: Capture, n: nat, text: string, scan: PageScan): Capture
    requires scan.first.Some? ==> scan.first.value <= |text|
  {
    if c.capturing then Capture(c.refs + PageBlock(n, text), true)
    else if !scan.heading then c
    else match scan.first
      case Some(k) => Capture(c.refs + PageMarker(n) + text[k..], true)
      case None => Capture(c.refs, true)
  }

  /** The same loop, scanning each page as it comes. */
  function CaptureUpTo(pages: seq<string>, n: nat): Capture
    requires n <= |pages|
  {
    if n == 0 then Capture("", false)
    else Step(CaptureUpTo(pages, n - 1), n, pages[n - 1], Scan(pages[n - 1]))
  }

  /** Scanning as the pages come is scanning them all first. */
  lemma {:induction false} CaptureUpToWith(pages: seq<string>, n: nat)
    requires n <= |pages|
    ensures Fits(pages, Scans(pages)) && CaptureUpTo(pages, n) == CaptureWith(pages, Scans(pages), n)
  {
    ScansFit(pages);
    if n > 0 {
      CaptureUpToWith(pages, n - 1);
      ScanAt(pages, n - 1);
    }
  }

  /** The body of the page loop of `main`, for page `n` (1-based). */
  method CapturePage(refs: string, capture: bool, n: nat, text: string) returns (refs': string, capture': bool)
    ensures Capture(refs', capture') == Step(Capture(refs, capture), n, text, Scan(text))
  {
    refs', capture' := refs, capture;
    if !capture {
      var scan := Scan(text);
      if scan.heading {
        capture' := true;
        var m := scan.first;
        if m.Some? {
          refs' := refs' + PageMarker(n);
          refs' := refs' + text[m.value..];
        }
      }
    } else {
      refs' := refs' + PageBlock(n, text);
    }
  }

  /** The loop of `main`. */
  method Collect(pages: seq<string>) returns (refs: string)
    ensures refs == CaptureUpTo(pages, |pages|).refs
  {
    refs := "";
    var capture := false;
    var n := 0;
    while n < |pages|
      invariant 0 <= n <= |pages|
      invariant Capture(refs, capture) == CaptureUpTo(pages, n)
    {
      refs, capture := CapturePage(refs, capture, n + 1, pages[n]);
      n := n + 1;
    }
  }

  /** Capturing has begun exactly when some page so far has a heading, and
      nothing is kept before that. */
  lemma {:induction false} CapturingIff(pages: seq<string>, scans: seq<PageScan>, n: nat)
    requires Fits(pages, scans) && n <= |pages|
    ensures CaptureWith(pages, scans, n).capturing <==> exists p :: 0 <= p < n && scans[p].heading
    ensures !CaptureWith(pages, scans, n).capturing ==> CaptureWith(pages, scans, n).refs == ""
  {
    if n > 0 {
      CapturingIff(pages, scans, n - 1);
    }
  }

  /** Once the first heading page `k` is passed, the text is that page's
      marker and its text from the word on, then every later page's block:
      capturing never stops and never restarts. */
  lemma {:induction false} CaptureShape(pages: seq<string>, scans: seq<PageScan>, k: nat, n: nat)
    requires Fits(pages, scans) && k < n <= |pages|
    requires scans[k].heading && scans[k].first.Some?
    requires forall p :: 0 <= p < k ==> !scans[p].heading
    ensures CaptureWith(pages, scans, n)
         == Capture(PageMarker(k + 1) + pages[k][scans[k].first.value..]
                    + Concat(PageBlocks(pages, k + 1, n)), true)
  {
    if n == k + 1 {
      CapturingIff(pages, scans, k);
      assert PageBlocks(pages, k + 1, n) == [];
    } else {
      CaptureShape(pages, scans, k, n - 1);
      var blocks := PageBlocks(pages, k + 1, n);
      assert blocks[..|blocks| - 1] == PageBlocks(pages, k + 1, n - 1);
    }
  }

  /** The first page with a heading. */
  function FirstHeading(pages: seq<string>): (k: nat)
    requires exists p :: 0 <= p < |pages| && HasHeading(pages[p])
    ensures k < |pages| && HasHeading(pages[k]) && forall p :: 0 <= p < k ==> !HasHeading(pages[p])
  {
    if HasHeading(pages[0]) then 0
    else
      var p :| 0 <= p < |pages| && HasHeading(pages[p]);
      assert HasHeading(pages[1..][p - 1]);
      1 + FirstHeading(pages[1..])
  }

  /** Without a heading page the references text stays empty. */
  lemma ReferencesWithoutHeading(pages: seq<string>)
    requires forall p :: 0 <= p < |pages| ==> !HasHeading(pages[p])
    ensures CaptureUpTo(pages, |pages|).refs == ""
  {
    var scans := Scans(pages);
    CaptureUpToWith(pages, |pages|);
    CapturingIff(pages, scans, |pages|);
    forall p | 0 <= p < |pages| ensures !scans[p].heading {
      ScanAt(pages, p);
    }
  }

  /** With one, it is the first heading page's marker and its text from the
      first word on, then every later page whole after its marker. */
  lemma ReferencesFromHeading(pages: seq<string>, k: nat)
    requires k < |pages| && HasHeading(pages[k]) && forall p :: 0 <= p < k ==> !HasHeading(pages[p])
    ensures FirstWord(pages[k]).Some?
    ensures CaptureUpTo(pages, |pages|).refs
         == PageMarker(k + 1) + pages[k][FirstWord(pages[k]).value..] + Concat(PageBlocks(pages, k + 1, |pages|))
  {
    var scans := Scans(pages);
    CaptureUpToWith(pages, |pages|);
    HeadingFound(pages[k]);
    forall p | 0 <= p < k ensures !scans[p].heading {
      ScanAt(pages, p);
    }
    ScanAt(pages, k);
    CaptureShape(pages, scans, k, |pages|);
  }

  /** Text that starts with a page marker is not blank. */
  lemma MarkedNotBlank(marker: string, word: string, rest: string)
    requires |marker| > 0 && marker[0] == '-'
    ensures Strip(marker + word + rest) != ""
  {
    StripEmptyIffAllSpace(marker + word + rest);
    assert (marker + word + rest)[0] == '-';
  }

  /** The script finds no section exactly when no page has a heading. */
  lemma NoSectionIffNoHeading(pages: seq<string>)
    ensures Strip(CaptureUpTo(pages, |pages|).refs) == ""
        <==> forall p :: 0 <= p < |pages| ==> !HasHeading(pages[p])
  {
    if exists p :: 0 <= p < |pages| && HasHeading(pages[p]) {
      var k := FirstHeading(pages);
      ReferencesFromHeading(pages, k);
      var marker := PageMarker(k + 1);
      assert marker[0] == '-';
      MarkedNotBlank(marker, pages[k][FirstWord(pages[k]).value..], Concat(PageBlocks(pages, k + 1, |pages|)));
    } else {
      ReferencesWithoutHeading(pages);
    }
  }

  /** `main`: usage and missing-file errors exit 1; a document without a
      section prints the notice and still exits 0; otherwise the captured
      text is printed. */
  function Run(argv: seq<string>, files: set<string>, pymupdf: bool, pages: seq<string>): (r: ScriptEnd)
    ensures r.code == 0 <==> |argv| >= 2 && argv[1] in files && pymupdf
    ensures r.code == 0 ==> |r.printed| == 1
  {
    match Preflight(argv, 2, Usage, files, pymupdf)
    case Some(e) => e
    case None =>
      var refs := CaptureUpTo(pages, |pages|).refs;
      if Strip(refs) == "" then ScriptEnd([NoSection], 0) else ScriptEnd([refs], 0)
  }

  /** A run that gets to the document prints the notice exactly when no page
      has a heading, and otherwise the references text. */
  lemma RunOutcome(argv: seq<string>, files: set<string>, pages: seq<string>)
    requires |argv| >= 2 && argv[1] in files
    ensures Run(argv, files, true, pages)
         == ScriptEnd(if forall p :: 0 <= p < |pages| ==> !HasHeading(pages[p]) then [NoSection]
                      else [CaptureUpTo(pages, |pages|).refs], 0)
  {
    NoSectionIffNoHeading(pages);
  }
}
