/** What the command-line scripts share: the files they write, what they
    print and how they exit, the checks every PDF script makes before it
    opens the document (enough command-line arguments, an existing file at
    the first one, the PDF library importable), and the page markers. `argv`
    is the whole `sys.argv`, script name included. */
module Script {
  import opened Strings

  /** A file written in full. */
  datatype File = File(path: string, text: string)

  /** What a script printed (one entry per `print` call) and its exit status. */
  datatype ScriptEnd = ScriptEnd(printed: seq<string>, code: nat)

  function NotFound(path: string): string {
    "Error: file not found: " + path
  }

  const NoPyMuPdf := "Error: pymupdf not installed. Run: pip install pymupdf"

  /** The first failing check as the run it ends, or `None` when the script
      goes on to open `argv[1]`. `files` are the paths that name regular
      files; `pymupdf` tells whether `import fitz` succeeds. */
  function Preflight(argv: seq<string>, minArgc: nat, usage: seq<string>,
                     files: set<string>, pymupdf: bool): (r: Option<ScriptEnd>)
    requires minArgc >= 2 && |usage| > 0
    ensures r.None? <==> |argv| >= minArgc && argv[1] in files && pymupdf
    ensures r.Some? ==> r.value.code == 1 && |r.value.printed| > 0
    ensures |argv| < minArgc ==> r == Some(ScriptEnd(usage, 1))
  {
    if |argv| < minArgc then Some(ScriptEnd(usage, 1))
    else if argv[1] !in files then Some(ScriptEnd([NotFound(argv[1])], 1))
    else if !pymupdf then Some(ScriptEnd([NoPyMuPdf], 1))
    else None
  }

  /** `"\n--- Page n ---\n"` without its leading newline: the marker put before a page's text. */
  function PageMarker(n: nat): string {
    "--- Page " + NatToString(n) + " ---\n"
  }

  /** `f"\n--- Page {n} ---\n{text}"`: page `n`'s text after a marker line. */
  function PageBlock(n: nat, text: string): string {
    "\n" + PageMarker(n) + text
  }

  /** The blocks of pages `from + 1` to `to` (1-based), in page order. */
  function PageBlocks(pages: seq<string>, from: nat, to: nat): (r: seq<string>)
    requires from <= to <= |pages|
    ensures |r| == to - from
  {
    seq(to - from, i requires 0 <= i < to - from => PageBlock(from + i + 1, pages[from + i]))
  }

  /** `"".join(parts)` */
  function Concat(parts: seq<string>): (r: string)
    ensures |parts| == 0 ==> r == ""
  {
    if |parts| == 0 then "" else Concat(parts[..|parts| - 1]) + parts[|parts| - 1]
  }

  /** Joining with the empty separator is concatenation. */
  lemma {:induction false} ConcatIsJoin(parts: seq<string>)
    ensures Concat(parts) == Join(parts, "")
    decreases |parts|
  {
    if |parts| > 1 {
      var init := parts[..|parts| - 1];
      ConcatIsJoin(parts[1..]);
      ConcatIsJoin(init);
      ConcatIsJoin(init[1..]);
      assert parts[1..][..|parts[1..]| - 1] == init[1..];
      assert Concat(parts[1..]) == Concat(init[1..]) + parts[|parts| - 1];
      if |init| == 1 {
        assert Concat(init) == init[0];
      } else {
        assert Concat(init) == init[0] + Concat(init[1..]);
      }
    } else if |parts| == 1 {
      assert parts[..0] == [];
    }
  }

  /** Concatenation as recursion from the front. */
  lemma {:induction false} ConcatCons(parts: seq<string>)
    requires |parts| > 0
    ensures Concat(parts) == parts[0] + Concat(parts[1..])
    decreases |parts|
  {
    if |parts| == 1 {
      assert parts[..0] == [];
      assert parts[1..] == [];
    } else {
      var init := parts[..|parts| - 1];
      ConcatCons(init);
      assert init[1..] == parts[1..][..|parts[1..]| - 1];
    }
  }

  /** Each part sits in the concatenation right after the parts before it. */
  lemma {:induction false} ConcatAt(parts: seq<string>, i: nat)
    requires i < |parts|
    ensures var o := |Concat(parts[..i])|;
            o + |parts[i]| <= |Concat(parts)| && Concat(parts)[o..o + |parts[i]|] == parts[i]
    decreases |parts| - i
  {
    var o := |Concat(parts[..i])|;
    assert parts[..i + 1][..i] == parts[..i];
    assert Concat(parts[..i + 1]) == Concat(parts[..i]) + parts[i];
    ConcatPrefix(parts, i + 1);
  }

  /** The concatenation of the first `i` parts is a prefix of the whole. */
  lemma {:induction false} ConcatPrefix(parts: seq<string>, i: nat)
    requires i <= |parts|
    ensures Concat(parts[..i]) <= Concat(parts)
    decreases |parts| - i
  {
    if i == |parts| {
      assert parts[..i] == parts;
    } else {
      ConcatPrefix(parts, i + 1);
      assert parts[..i + 1][..i] == parts[..i];
      assert Concat(parts[..i + 1]) == Concat(parts[..i]) + parts[i];
    }
  }
}
