/** `extract_text.py`: every page's text after a page marker, written to
    one file. A document is the sequence of its pages' `get_text()` results. */
module ExtractText {
  import opened Strings
  import opened Script

  const Usage := ["Usage: python extract_text.py <pdf_path> [output_path]"]

  /** The second argument when there is one, otherwise the PDF path with `.txt` added. */
  function OutputPath(argv: seq<string>): (r: string)
    requires |argv| >= 2
    ensures |argv| > 2 ==> r == argv[2]
    ensures |argv| == 2 ==> r == argv[1] + ".txt"
    ensures r == argv[1] ==> |argv| > 2 && argv[2] == argv[1]
  {
    if |argv| > 2 then argv[2] else argv[1] + ".txt"
  }

  /** The page loop: one block per page, in page order, then `"".join`. */
  method FullText(pages: seq<string>) returns (text: string)
    ensures text == Concat(PageBlocks(pages, 0, |pages|))
  {
    var lines: seq<string> := [];
    var i := 0;
    while i < |pages|
      invariant 0 <= i <= |pages|
      invariant lines == PageBlocks(pages, 0, i)
    {
      lines := lines + [PageBlock(i + 1, pages[i])];
      i := i + 1;
    }
    text := Concat(lines);
  }

  /** One more page adds its block at the end and changes nothing before it. */
  lemma FullTextAppend(pages: seq<string>, page: string)
    ensures Concat(PageBlocks(pages + [page], 0, |pages| + 1))
         == Concat(PageBlocks(pages, 0, |pages|)) + PageBlock(|pages| + 1, page)
  {
    var blocks := PageBlocks(pages + [page], 0, |pages| + 1);
    assert blocks[..|pages|] == PageBlocks(pages, 0, |pages|);
  }

  /** Every page's text appears verbatim in the file, right after the marker
      `"\n--- Page i ---\n"` for its 1-based number, at an offset given by the
      pages before it. */
  lemma PageVerbatim(pages: seq<string>, i: nat)
    requires i < |pages|
    ensures var text := Concat(PageBlocks(pages, 0, |pages|));
            var o := |Concat(PageBlocks(pages, 0, i))|;
            var m := "\n" + PageMarker(i + 1);
            && o + |m| + |pages[i]| <= |text|
            && text[o..o + |m|] == m
            && text[o + |m|..o + |m| + |pages[i]|] == pages[i]
  {
    var blocks := PageBlocks(pages, 0, |pages|);
    assert blocks[..i] == PageBlocks(pages, 0, i);
    ConcatAt(blocks, i);
    var o := |Concat(PageBlocks(pages, 0, i))|;
    var m := "\n" + PageMarker(i + 1);
    var text := Concat(blocks);
    assert blocks[i] == m + pages[i];
    assert text[o..o + |blocks[i]|] == m + pages[i];
    SliceOfSlice(text, o, o + |blocks[i]|, 0, |m|);
    SliceOfSlice(text, o, o + |blocks[i]|, |m|, |blocks[i]|);
    assert (m + pages[i])[..|m|] == m;
    assert (m + pages[i])[|m|..] == pages[i];
  }

  /** The file is exactly as long as the pages plus their markers. */
  lemma {:induction false} FullTextLength(pages: seq<string>)
    ensures |Concat(PageBlocks(pages, 0, |pages|))| == MarkedLength(pages)
    decreases |pages|
  {
    if |pages| > 0 {
      var init := pages[..|pages| - 1];
      FullTextLength(init);
      assert init + [pages[|pages| - 1]] == pages;
      FullTextAppend(init, pages[|pages| - 1]);
    }
  }

  function MarkedLength(pages: seq<string>): nat {
    if |pages| == 0 then 0
    else MarkedLength(pages[..|pages| - 1]) + 1 + |PageMarker(|pages|)| + |pages[|pages| - 1]|
  }

  /** The run: the checks, then the file written and the message printed. */
  datatype TextRun = TextRun(end: ScriptEnd, written: Option<File>)

  function Summary(n: nat, path: string): string {
    "Extracted " + NatToString(n) + " pages -> " + path
  }

  /** `main`: usage and missing-file errors exit 1 before anything is written;
      otherwise the text of every page goes to the output path and the
      number of pages is reported. */
  function Run(argv: seq<string>, files: set<string>, pymupdf: bool, pages: seq<string>): (r: TextRun)
    ensures r.written.None? <==> r.end.code == 1
    ensures r.end.code == 0 <==> |argv| >= 2 && argv[1] in files && pymupdf
    ensures r.written.Some? ==> r.end.printed == [Summary(|pages|, r.written.value.path)]
    ensures r.written.Some? ==> |argv| >= 2 && r.written.value == File(OutputPath(argv), Concat(PageBlocks(pages, 0, |pages|)))
  {
    match Preflight(argv, 2, Usage, files, pymupdf)
    case Some(e) => TextRun(e, None)
    case None =>
      var path := OutputPath(argv);
      TextRun(ScriptEnd([Summary(|pages|, path)], 0), Some(File(path, Concat(PageBlocks(pages, 0, |pages|)))))
  }

  /** `main` as written: the final message reads `doc.page_count` after
      `doc.close()`, and PyMuPDF refuses any access to a closed document with
      an exception. The checks end the run as before; past them the file is
      written, and then the run fails with exit status 1 without its message. */
  function RunAsWritten(argv: seq<string>, files: set<string>, pymupdf: bool, pages: seq<string>): (r: TextRun)
    ensures r.end.code == 1
    ensures r.written.Some? <==> |argv| >= 2 && argv[1] in files && pymupdf
  {
    match Preflight(argv, 2, Usage, files, pymupdf)
    case Some(e) => TextRun(e, None)
    case None =>
      var path := OutputPath(argv);
      TextRun(ScriptEnd([], 1), Some(File(path, Concat(PageBlocks(pages, 0, |pages|)))))
  }

  /** Every run that gets to the document fails as written after writing the
      same file the corrected run writes, and prints nothing, where the
      corrected run reports the page count and exits 0. */
  lemma RunAsWrittenFailsAfterWriting(argv: seq<string>, files: set<string>, pages: seq<string>)
    requires |argv| >= 2 && argv[1] in files
    ensures RunAsWritten(argv, files, true, pages).written == Run(argv, files, true, pages).written
    ensures RunAsWritten(argv, files, true, pages).end == ScriptEnd([], 1)
    ensures Run(argv, files, true, pages).end.code == 0
  {
  }

  /** A successful run writes to the second argument when there is one and
      next to the PDF otherwise, and the file holds the page blocks in page
      order, each page verbatim after its marker. */
  lemma RunWrites(argv: seq<string>, files: set<string>, pages: seq<string>)
    requires |argv| >= 2 && argv[1] in files
    ensures var r := Run(argv, files, true, pages);
            && r.written.Some?
            && r.written.value.path == (if |argv| > 2 then argv[2] else argv[1] + ".txt")
            && r.written.value.text == Concat(PageBlocks(pages, 0, |pages|))
            && |r.written.value.text| == MarkedLength(pages)
  {
    FullTextLength(pages);
  }
}
