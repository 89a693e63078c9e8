/** `extract_form_fields.py`: the fillable form fields of a PDF, page by
    page, as text lines or as JSON. A document is the sequence of its
    pages' widget lists. */
module ExtractFormFields {
  import opened Strings
  import opened Script

  const Usage := ["Usage: python extract_form_fields.py <pdf_path> [--json]"]
  const NoFields := "No form fields found in the PDF."

  /** A widget's value as the library reports it: none, a string, or a
      check-box state. */
  datatype FieldValue = NoValue | Text(s: string) | Flag(b: bool)

  datatype Widget = Widget(name: string, kind: string, value: FieldValue)

  /** One collected field: its 1-based page and the widget's name, type and value. */
  datatype Field = Field(page: nat, name: string, kind: string, value: FieldValue)

  /** Python's falsy values among the widget values. */
  predicate Falsy(v: FieldValue) {
    v == NoValue || v == Text("") || v == Flag(false)
  }

  /** `value or ""`: a falsy value becomes the empty string, any other stays. */
  function OrEmpty(v: FieldValue): (r: FieldValue)
    ensures r == (if Falsy(v) then Text("") else v)
    ensures !Falsy(r) || r == Text("")
    ensures r.NoValue? == false
  {
    if Falsy(v) then Text("") else v
  }

  /** `str(value)` */
  function Shown(v: FieldValue): string {
    match v
    case NoValue => "None"
    case Text(s) => s
    case Flag(b) => if b then "True" else "False"
  }

  function FieldOf(page: nat, w: Widget): Field {
    Field(page, w.name, w.kind, OrEmpty(w.value))
  }

  /** The fields of the first `n` pages, page after page, each page's in widget order. */
  function FieldsUpTo(pages: seq<seq<Widget>>, n: nat): seq<Field>
    requires n <= |pages|
  {
    if n == 0 then [] else FieldsUpTo(pages, n - 1) + WidgetFields(n, pages[n - 1])
  }

  function WidgetFields(page: nat, widgets: seq<Widget>): (r: seq<Field>)
    ensures |r| == |widgets|
  {
    seq(|widgets|, i requires 0 <= i < |widgets| => FieldOf(page, widgets[i]))
  }

  /** The page loop with its inner widget loop. */
  method Collect(pages: seq<seq<Widget>>) returns (fields: seq<Field>)
    ensures fields == FieldsUpTo(pages, |pages|)
  {
    fields := [];
    var n := 0;
    while n < |pages|
      invariant 0 <= n <= |pages|
      invariant fields == FieldsUpTo(pages, n)
    {
      var widgets := pages[n];
      var i := 0;
      while i < |widgets|
        invariant 0 <= i <= |widgets|
        invariant fields == FieldsUpTo(pages, n) + WidgetFields(n + 1, widgets[..i])
      {
        assert WidgetFields(n + 1, widgets[..i + 1]) == WidgetFields(n + 1, widgets[..i]) + [FieldOf(n + 1, widgets[i])];
        fields := fields + [FieldOf(n + 1, widgets[i])];
        i := i + 1;
      }
      assert widgets[..i] == widgets;
      n := n + 1;
    }
  }

  /** The number of widgets on the first `n` pages. */
  function WidgetCount(pages: seq<seq<Widget>>, n: nat): nat
    requires n <= |pages|
  {
    if n == 0 then 0 else WidgetCount(pages, n - 1) + |pages[n - 1]|
  }

  /** One field per widget, and so none exactly when no page has a widget. */
  lemma {:induction false} FieldCount(pages: seq<seq<Widget>>, n: nat)
    requires n <= |pages|
    ensures |FieldsUpTo(pages, n)| == WidgetCount(pages, n)
    ensures FieldsUpTo(pages, n) == [] <==> forall p :: 0 <= p < n ==> pages[p] == []
  {
    if n > 0 {
      FieldCount(pages, n - 1);
    }
  }

  /** Where widget `i` of page `p` (0-based) lands: after all widgets of the earlier pages. */
  lemma {:induction false} FieldPosition(pages: seq<seq<Widget>>, n: nat, p: nat, i: nat)
    requires p < n <= |pages| && i < |pages[p]|
    ensures var k := WidgetCount(pages, p) + i;
            k < |FieldsUpTo(pages, n)| && FieldsUpTo(pages, n)[k] == FieldOf(p + 1, pages[p][i])
  {
    FieldCount(pages, n - 1);
    FieldCount(pages, p);
    if p < n - 1 {
      FieldPosition(pages, n - 1, p, i);
      WidgetCountGrows(pages, p + 1, n - 1);
    }
  }

  lemma {:induction false} WidgetCountGrows(pages: seq<seq<Widget>>, m: nat, n: nat)
    requires m <= n <= |pages|
    ensures WidgetCount(pages, m) <= WidgetCount(pages, n)
  {
    if m < n {
      WidgetCountGrows(pages, m, n - 1);
    }
  }

  /** `w` is a widget of page `p` (1-based). */
  predicate WidgetOn(pages: seq<seq<Widget>>, p: nat, w: Widget) {
    1 <= p <= |pages| && w in pages[p - 1]
  }

  /** Every field is a widget of its page, pages counted from 1, with its
      value falsy-folded; no field is left without a value. */
  lemma {:induction false} FieldsSound(pages: seq<seq<Widget>>, n: nat, f: Field)
    requires n <= |pages| && f in FieldsUpTo(pages, n)
    ensures 1 <= f.page <= n
    ensures exists w :: WidgetOn(pages, f.page, w) && f == FieldOf(f.page, w)
    ensures f.value != NoValue && f.value != Flag(false)
  {
    var here := WidgetFields(n, pages[n - 1]);
    if f in here {
      var i :| 0 <= i < |here| && here[i] == f;
      assert f == FieldOf(n, pages[n - 1][i]) && WidgetOn(pages, n, pages[n - 1][i]);
    } else {
      FieldsSound(pages, n - 1, f);
    }
  }

  /** `"--json" in sys.argv`: the whole argument list, script name and PDF path included. */
  predicate JsonMode(argv: seq<string>) {
    "--json" in argv
  }

  /** A PDF path equal to `--json` also switches to JSON. */
  lemma PathCanSwitchJson()
    ensures JsonMode(["extract_form_fields.py", "--json"])
  {
    assert ["extract_form_fields.py", "--json"][1] == "--json";
  }

  function FieldLine(f: Field): string {
    "[Page " + NatToString(f.page) + "] " + f.name + " (" + f.kind + "): " + Shown(f.value)
  }

  function FieldLines(fields: seq<Field>): (r: seq<string>)
    ensures |r| == |fields|
  {
    seq(|fields|, i requires 0 <= i < |fields| => FieldLine(fields[i]))
  }

  /** The text-mode print loop: one line per field, in field order. */
  method Report(fields: seq<Field>) returns (printed: seq<string>)
    ensures printed == FieldLines(fields)
  {
    printed := [];
    var i := 0;
    while i < |fields|
      invariant 0 <= i <= |fields|
      invariant printed == FieldLines(fields[..i])
    {
      assert fields[..i + 1][..i] == fields[..i];
      printed := printed + [FieldLine(fields[i])];
      i := i + 1;
    }
    assert fields[..i] == fields;
  }

  function TotalLine(n: nat): string {
    "\nTotal: " + NatToString(n) + " field(s) found."
  }

  /** One `print`: a line of text, or the fields serialised as JSON. */
  datatype Output = Line(text: string) | JsonDump(fields: seq<Field>)

  datatype FieldsRun = FieldsRun(printed: seq<Output>, code: nat)

  function Lines(lines: seq<string>): (r: seq<Output>)
    ensures |r| == |lines|
  {
    seq(|lines|, i requires 0 <= i < |lines| => Line(lines[i]))
  }

  /** `main`: usage and missing-file errors exit 1; no fields prints the
      notice and exits 0; otherwise the fields (as JSON, or one line each)
      and then the total. */
  function Run(argv: seq<string>, files: set<string>, pymupdf: bool, pages: seq<seq<Widget>>): (r: FieldsRun)
    ensures r.code == 0 <==> |argv| >= 2 && argv[1] in files && pymupdf
  {
    match Preflight(argv, 2, Usage, files, pymupdf)
    case Some(e) => FieldsRun(Lines(e.printed), e.code)
    case None =>
      var fields := FieldsUpTo(pages, |pages|);
      if fields == [] then FieldsRun([Line(NoFields)], 0)
      else if JsonMode(argv) then FieldsRun([JsonDump(fields), Line(TotalLine(|fields|))], 0)
      else FieldsRun(Lines(FieldLines(fields)) + [Line(TotalLine(|fields|))], 0)
  }

  /** A run that gets to the document prints the notice exactly when no
      page has a widget; otherwise it ends with the total, which counts every
      widget, after the JSON dump or one line per field. */
  lemma RunOutcome(argv: seq<string>, files: set<string>, pages: seq<seq<Widget>>)
    requires |argv| >= 2 && argv[1] in files
    ensures var r := Run(argv, files, true, pages);
            && (r.printed == [Line(NoFields)] <==> forall p :: 0 <= p < |pages| ==> pages[p] == [])
            && (r.printed != [Line(NoFields)] ==>
                  && r.printed[|r.printed| - 1] == Line(TotalLine(WidgetCount(pages, |pages|)))
                  && |r.printed| == (if JsonMode(argv) then 2 else WidgetCount(pages, |pages|) + 1)
                  && (JsonMode(argv) ==> r.printed[0] == JsonDump(FieldsUpTo(pages, |pages|)))
                  && (!JsonMode(argv) ==>
                        r.printed[..|r.printed| - 1] == Lines(FieldLines(FieldsUpTo(pages, |pages|)))))
  {
    FieldCount(pages, |pages|);
    var fields := FieldsUpTo(pages, |pages|);
    var r := Run(argv, files, true, pages);
    if fields != [] {
      assert r.printed[|r.printed| - 1] == Line(TotalLine(|fields|));
      assert NoFields[0] == 'N' && TotalLine(|fields|)[0] == '\n';
      assert r.printed != [Line(NoFields)];
      if !JsonMode(argv) {
        assert r.printed[..|r.printed| - 1] == Lines(FieldLines(fields));
      }
    }
  }
}
