/** `search_clauses.py`: every non-blank line of the document that mentions
    one of the keywords, in any letter case, with its page and line number. */
module SearchClauses {
  import opened Strings
  import opened Script

  const Usage := ["Usage: python search_clauses.py <pdf_path> <keyword> [keyword2 ...]",
                  "Example: python search_clauses.py contract.pdf termination confidential"]

  /** A matching line: 1-based page, 1-based line within that page, and the line stripped. */
  datatype Hit = Hit(page: nat, line: nat, text: string)

  /** The pattern of the escaped keywords joined by `|` under IGNORECASE
      finds a match in `line`: some keyword occurs in it, letter case aside. */
  predicate Matches(line: string, keywords: seq<string>) {
    exists k :: 0 <= k < |keywords| && Contains(Lower(line), Lower(keywords[k]))
  }

  /** A page's lines: its text split at every newline. */
  function LinesOf(text: string): seq<string> {
    Split(text, '\n')
  }

  /** What line `l` (1-based) of page `p` contributes: a hit when it matches
      and is not blank once stripped. */
  function HitOf(p: nat, l: nat, line: string, keywords: seq<string>): seq<Hit> {
    if Matches(line, keywords) && Strip(line) != "" then [Hit(p, l, Strip(line))] else []
  }

  /** The hits among the first `n` lines of page `p`. */
  function LineHits(p: nat, lines: seq<string>, keywords: seq<string>, n: nat): seq<Hit>
    requires n <= |lines|
  {
    if n == 0 then [] else LineHits(p, lines, keywords, n - 1) + HitOf(p, n, lines[n - 1], keywords)
  }

  /** The hits on the first `m` pages, page by page. */
  function PageHits(pages: seq<string>, keywords: seq<string>, m: nat): seq<Hit>
    requires m <= |pages|
  {
    if m == 0 then []
    else PageHits(pages, keywords, m - 1) + LineHits(m, LinesOf(pages[m - 1]), keywords, |LinesOf(pages[m - 1])|)
  }

  /** The lines of one page, numbered from 1. */
  method SearchPage(p: nat, text: string, keywords: seq<string>) returns (hits: seq<Hit>)
    ensures hits == LineHits(p, LinesOf(text), keywords, |LinesOf(text)|)
  {
    var lines := LinesOf(text);
    hits := [];
    var l := 0;
    while l < |lines|
      invariant 0 <= l <= |lines|
      invariant hits == LineHits(p, lines, keywords, l)
    {
      var line := lines[l];
      if Matches(line, keywords) {
        var stripped := Strip(line);
        if stripped != "" {
          hits := hits + [Hit(p, l + 1, stripped)];
        }
      }
      l := l + 1;
    }
  }

  /** The page loop; `total` counts the hits as they are printed. */
  method Search(pages: seq<string>, keywords: seq<string>) returns (hits: seq<Hit>, total: nat)
    ensures hits == PageHits(pages, keywords, |pages|)
    ensures total == |hits|
  {
    hits := [];
    total := 0;
    var m := 0;
    while m < |pages|
      invariant 0 <= m <= |pages|
      invariant hits == PageHits(pages, keywords, m)
      invariant total == |hits|
    {
      var found := SearchPage(m + 1, pages[m], keywords);
      hits := hits + found;
      total := total + |found|;
      m := m + 1;
    }
  }

  /** Every hit on a page is a matching, non-blank line of it, stripped. */
  lemma {:induction false} LineHitsSound(p: nat, lines: seq<string>, keywords: seq<string>, n: nat, h: Hit)
    requires n <= |lines| && h in LineHits(p, lines, keywords, n)
    ensures h.page == p && 1 <= h.line <= n
    ensures Matches(lines[h.line - 1], keywords) && h.text == Strip(lines[h.line - 1]) != ""
  {
    if h !in HitOf(p, n, lines[n - 1], keywords) {
      LineHitsSound(p, lines, keywords, n - 1, h);
    }
  }

  /** Every matching, non-blank line among the first `n` is a hit. */
  lemma {:induction false} LineHitsComplete(p: nat, lines: seq<string>, keywords: seq<string>, n: nat, l: nat)
    requires 1 <= l <= n <= |lines|
    requires Matches(lines[l - 1], keywords) && Strip(lines[l - 1]) != ""
    ensures Hit(p, l, Strip(lines[l - 1])) in LineHits(p, lines, keywords, n)
  {
    if l < n {
      LineHitsComplete(p, lines, keywords, n - 1, l);
    }
  }

  predicate LinesIncrease(hs: seq<Hit>) {
    forall i, j :: 0 <= i < j < |hs| ==> hs[i].line < hs[j].line
  }

  /** A page's hits come in strictly increasing line order. */
  lemma {:induction false} LineHitsOrdered(p: nat, lines: seq<string>, keywords: seq<string>, n: nat)
    requires n <= |lines|
    ensures LinesIncrease(LineHits(p, lines, keywords, n))
  {
    if n > 0 {
      LineHitsOrdered(p, lines, keywords, n - 1);
      var prev := LineHits(p, lines, keywords, n - 1);
      var last := HitOf(p, n, lines[n - 1], keywords);
      forall h | h in prev ensures h.line <= n - 1 {
        LineHitsSound(p, lines, keywords, n - 1, h);
      }
      var hs := prev + last;
      assert LinesIncrease(prev);
      forall i, j | 0 <= i < j < |hs| ensures hs[i].line < hs[j].line {
        if j < |prev| {
          assert hs[i] == prev[i] && hs[j] == prev[j];
        } else {
          assert |last| == 1 && hs[j] == last[0] && last[0].line == n;
          assert hs[i] == prev[i] && prev[i] in prev;
        }
      }
    }
  }

  /** Every hit is a matching, non-blank line of its page, stripped; line
      numbers start again at 1 on every page. */
  lemma {:induction false} HitsSound(pages: seq<string>, keywords: seq<string>, m: nat, h: Hit)
    requires m <= |pages| && h in PageHits(pages, keywords, m)
    ensures 1 <= h.page <= m
    ensures var lines := LinesOf(pages[h.page - 1]);
            && 1 <= h.line <= |lines|
            && Matches(lines[h.line - 1], keywords)
            && h.text == Strip(lines[h.line - 1]) != ""
  {
    var lines := LinesOf(pages[m - 1]);
    if h in LineHits(m, lines, keywords, |lines|) {
      LineHitsSound(m, lines, keywords, |lines|, h);
    } else {
      HitsSound(pages, keywords, m - 1, h);
    }
  }

  /** Every matching, non-blank line of every page is reported. */
  lemma {:induction false} HitsComplete(pages: seq<string>, keywords: seq<string>, m: nat, p: nat, l: nat)
    requires 1 <= p <= m <= |pages|
    requires 1 <= l <= |LinesOf(pages[p - 1])|
    requires Matches(LinesOf(pages[p - 1])[l - 1], keywords) && Strip(LinesOf(pages[p - 1])[l - 1]) != ""
    ensures Hit(p, l, Strip(LinesOf(pages[p - 1])[l - 1])) in PageHits(pages, keywords, m)
  {
    var lines := LinesOf(pages[m - 1]);
    var here := LineHits(m, lines, keywords, |lines|);
    assert PageHits(pages, keywords, m) == PageHits(pages, keywords, m - 1) + here;
    if p < m {
      HitsComplete(pages, keywords, m - 1, p, l);
    } else {
      LineHitsComplete(p, lines, keywords, |lines|, l);
    }
  }

  predicate Before(a: Hit, b: Hit) {
    a.page < b.page || (a.page == b.page && a.line < b.line)
  }

  predicate InDocumentOrder(hs: seq<Hit>) {
    forall i, j :: 0 <= i < j < |hs| ==> Before(hs[i], hs[j])
  }

  /** Hits are reported in document order: by page, then by line. */
  lemma {:induction false} HitsOrdered(pages: seq<string>, keywords: seq<string>, m: nat)
    requires m <= |pages|
    ensures InDocumentOrder(PageHits(pages, keywords, m))
  {
    if m > 0 {
      HitsOrdered(pages, keywords, m - 1);
      var prev := PageHits(pages, keywords, m - 1);
      var lines := LinesOf(pages[m - 1]);
      var here := LineHits(m, lines, keywords, |lines|);
      LineHitsOrdered(m, lines, keywords, |lines|);
      forall h | h in prev ensures h.page <= m - 1 {
        HitsSound(pages, keywords, m - 1, h);
      }
      forall h | h in here ensures h.page == m {
        LineHitsSound(m, lines, keywords, |lines|, h);
      }
      var hs := prev + here;
      assert InDocumentOrder(prev) && LinesIncrease(here);
      forall i, j | 0 <= i < j < |hs| ensures Before(hs[i], hs[j]) {
        if j < |prev| {
          assert hs[i] == prev[i] && hs[j] == prev[j];
        } else if i < |prev| {
          assert hs[i] == prev[i] && prev[i] in prev;
          assert hs[j] == here[j - |prev|] && here[j - |prev|] in here;
        } else {
          assert hs[i] == here[i - |prev|] && hs[j] == here[j - |prev|];
          assert here[i - |prev|] in here && here[j - |prev|] in here;
          assert here[i - |prev|].line < here[j - |prev|].line;
        }
      }
    }
  }

  /** An empty keyword makes the pattern match every line. */
  lemma EmptyKeywordMatchesAll(line: string, keywords: seq<string>)
    requires "" in keywords
    ensures Matches(line, keywords)
  {
    var k :| 0 <= k < |keywords| && keywords[k] == "";
    ContainsEmpty(Lower(line));
  }

  /** The match ignores letter case on both sides. */
  lemma MatchIgnoresCase(line: string, keyword: string)
    ensures Matches(line, [keyword]) <==> Matches(Lower(line), [Lower(keyword)])
  {
    LowerIdempotent(line);
    LowerIdempotent(keyword);
    assert [keyword][0] == keyword && [Lower(keyword)][0] == Lower(keyword);
  }

  function HitLine(h: Hit): string {
    "[Page " + NatToString(h.page) + ", L" + NatToString(h.line) + "] " + h.text
  }

  function Summary(total: nat, keywords: seq<string>): string {
    if total == 0 then "No matches found for: " + Join(keywords, ", ")
    else "\nTotal: " + NatToString(total) + " match(es) for: " + Join(keywords, ", ")
  }

  function HitLines(hits: seq<Hit>): (r: seq<string>)
    ensures |r| == |hits|
  {
    seq(|hits|, i requires 0 <= i < |hits| => HitLine(hits[i]))
  }

  /** `main`: fewer than two arguments after the script name, or a missing
      file, exit 1; otherwise one line per hit and then the summary. */
  function Run(argv: seq<string>, files: set<string>, pymupdf: bool, pages: seq<string>): (r: ScriptEnd)
    ensures r.code == 0 <==> |argv| >= 3 && argv[1] in files && pymupdf
    ensures r.code == 0 ==> |r.printed| == |PageHits(pages, argv[2..], |pages|)| + 1
  {
    match Preflight(argv, 3, Usage, files, pymupdf)
    case Some(e) => e
    case None =>
      var hits := PageHits(pages, argv[2..], |pages|);
      ScriptEnd(HitLines(hits) + [Summary(|hits|, argv[2..])], 0)
  }

  /** A run that gets to the document prints one line per hit and then a
      summary that says "No matches" exactly when there was no hit, and
      otherwise gives the number of hits. */
  lemma RunSummary(argv: seq<string>, files: set<string>, pages: seq<string>)
    requires |argv| >= 3 && argv[1] in files
    ensures var r := Run(argv, files, true, pages);
            var hits := PageHits(pages, argv[2..], |pages|);
            var last := r.printed[|r.printed| - 1];
            && r.printed[..|hits|] == HitLines(hits)
            && (hits == [] <==> IsPrefix("No matches found for: ", last))
            && (hits != [] ==> last == "\nTotal: " + NatToString(|hits|) + " match(es) for: " + Join(argv[2..], ", "))
  {
    var hits := PageHits(pages, argv[2..], |pages|);
    var r := Run(argv, files, true, pages);
    var last := r.printed[|r.printed| - 1];
    assert r.printed == HitLines(hits) + [Summary(|hits|, argv[2..])];
    assert r.printed[..|hits|] == HitLines(hits);
    if hits != [] {
      assert last[0] == '\n';
    }
  }
}
