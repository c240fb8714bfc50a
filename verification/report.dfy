/**
 The HTML report of one domain: `generateHTMLReport` over a working
 directory modelled as a map from path to contents, and the scan outputs it
 reads. The report file is created (emptied) before anything is read, so a
 failed report leaves an empty file behind.
 */
module Report {
  import opened Wrappers
  import opened Text
  import opened Naming
  import Html
  import Cli

  /** The working directory: each existing file's path and contents. */
  type Files = map<string, string>

  const StylesFile: string := "styles.css"
  const ScriptFile: string := "script.js"

  /** Which path a section's scan output is read from. */
  datatype Lookup =
    | AsWritten    // the template path as given, as the program does
    | ByBaseName   // the template's basename, where the scan wrote it

  function OutputPath(rule: Lookup, domain: string, template: string): string
  {
    match rule
    case AsWritten => ReportLookupPath(domain, template)
    case ByBaseName => ScanOutputPath(domain, template)
  }

  /** `template%d` for the section of the `n`-th template, counting from one. */
  function SectionId(n: nat): string
  {
    "template" + Decimal(n)
  }

  function SectionTitle(n: nat): string
  {
    "Template " + Decimal(n) + " Results:"
  }

  /** One template's section: a numbered heading and the escaped output. */
  function Section(n: nat, escaped: string): string
  {
    "<h2 id=\"" + SectionId(n) + "\">" + SectionTitle(n) + "</h2><pre>" + escaped + "</pre>"
  }

  /** The output path of each template, in order. */
  function OutputPaths(rule: Lookup, domain: string, templates: seq<string>): seq<string>
  {
    seq(|templates|, k requires 0 <= k < |templates| => OutputPath(rule, domain, templates[k]))
  }

  /**
   Two templates of one report read the same file exactly when, as written,
   the templates are equal, and, by basename, when their basenames are.
   */
  lemma OutputPathsCollide(domain: string, templates: seq<string>, i: nat, j: nat)
    requires i < |templates| && j < |templates|
    ensures OutputPaths(AsWritten, domain, templates)[i] == OutputPaths(AsWritten, domain, templates)[j]
      <==> templates[i] == templates[j]
    ensures OutputPaths(ByBaseName, domain, templates)[i] == OutputPaths(ByBaseName, domain, templates)[j]
      <==> Base(templates[i]) == Base(templates[j])
  {
    SameLookupPathIff(domain, templates[i], templates[j]);
    SameScanOutputIff(domain, templates[i], templates[j]);
  }

  /** Every path names an existing file. */
  predicate AllPresent(paths: seq<string>, files: Files)
  {
    forall k | 0 <= k < |paths| :: paths[k] in files
  }

  lemma AllPresentTail(paths: seq<string>, files: Files)
    requires paths != [] && paths[0] in files
    ensures AllPresent(paths, files) <==> AllPresent(paths[1..], files)
  {
    if AllPresent(paths[1..], files) {
      forall k | 0 <= k < |paths|
        ensures paths[k] in files
      {
        if k > 0 {
          assert paths[k] == paths[1..][k - 1];
        }
      }
    }
  }

  lemma AllPresentGrow(paths: seq<string>, files: Files, k: nat)
    requires paths != [] && paths[0] in files
    requires k < |paths| - 1 && AllPresent(paths[1..][..k], files)
    ensures AllPresent(paths[..k + 1], files)
  {
    var before := paths[..k + 1];
    forall j | 0 <= j < |before|
      ensures before[j] in files
    {
      if j > 0 {
        assert before[j] == paths[1..][..k][j - 1];
      }
    }
  }

  /**
   The section loop over the templates' output paths, numbering from `n`.
   It succeeds exactly when every output file exists, and then section `k`
   holds the escaped contents of file `k` under number `n + k`. Otherwise it
   fails with the first missing path: every earlier path exists.
   */
  function Sections(paths: seq<string>, files: Files, n: nat): (r: Result<seq<string>, string>)
    ensures r.Success? <==> AllPresent(paths, files)
    ensures r.Success? ==> |r.value| == |paths|
    ensures r.Success? ==> forall k | 0 <= k < |paths| ::
      r.value[k] == Section(n + k, Html.Escape(files[paths[k]]))
    ensures r.Failure? ==> r.error !in files
    ensures r.Failure? ==> r.error in paths
    decreases |paths|
  {
    if paths == [] then Success([])
    else if paths[0] !in files then
      Failure(paths[0])
    else
      AllPresentTail(paths, files);
      match Sections(paths[1..], files, n + 1)
      case Failure(e) => Failure(e)
      case Success(sections) =>
        SectionsCons(paths, files, n, sections);
        Success([Section(n, Html.Escape(files[paths[0]]))] + sections)
  }

  lemma SectionsCons(paths: seq<string>, files: Files, n: nat, sections: seq<string>)
    requires paths != [] && AllPresent(paths, files)
    requires |sections| == |paths| - 1
    requires forall k | 0 <= k < |paths[1..]| ::
      sections[k] == Section(n + 1 + k, Html.Escape(files[paths[1..][k]]))
    ensures forall k | 0 <= k < |paths| ::
      ([Section(n, Html.Escape(files[paths[0]]))] + sections)[k] == Section(n + k, Html.Escape(files[paths[k]]))
  {
    var r := [Section(n, Html.Escape(files[paths[0]]))] + sections;
    forall k | 0 <= k < |paths|
      ensures r[k] == Section(n + k, Html.Escape(files[paths[k]]))
    {
      if k > 0 {
        assert r[k] == sections[k - 1];
        assert paths[k] == paths[1..][k - 1];
      }
    }
  }

  /** A failing section loop stops at the first missing path: every path before it exists. */
  lemma {:induction false} SectionsFailAtFirstMissing(paths: seq<string>, files: Files, n: nat)
    requires Sections(paths, files, n).Failure?
    ensures exists k | 0 <= k < |paths| ::
      Sections(paths, files, n).error == paths[k] && AllPresent(paths[..k], files)
    decreases |paths|
  {
    if paths[0] !in files {
      assert AllPresent(paths[..0], files);
    } else {
      SectionsFailAtFirstMissing(paths[1..], files, n + 1);
      var e := Sections(paths[1..], files, n + 1).error;
      var k :| 0 <= k < |paths[1..]| && e == paths[1..][k] && AllPresent(paths[1..][..k], files);
      AllPresentGrow(paths, files, k);
      assert e == paths[k + 1];
    }
  }

  /** A piece of the report template: fixed text, or a place the domain, style sheet or script fills. */
  datatype Slot = Fixed(text: string) | DomainSlot | StyleSlot | ScriptSlot

  /** The report template up to the sections. */
  const HeadLayout: seq<Slot> := [
    Fixed("\n<!DOCTYPE html>\n<html>\n<head>\n  <title>Security Scan Report for "), DomainSlot,
    Fixed("</title>\n  <style>\n    /* Add your custom CSS styles here */\n    "), StyleSlot,
    Fixed("\n  </style>\n  <script>\n    // Add your custom JavaScript here\n    "), ScriptSlot,
    Fixed("\n  </script>\n</head>\n<body>\n  <h1>Security Scan Report for "), DomainSlot,
    Fixed("</h1>\n  <h2>Results:</h2>\n  ")
  ]

  /** The template pieces with the slots filled in, in order. */
  function Fill(layout: seq<Slot>, domain: string, css: string, js: string): string
  {
    if layout == [] then []
    else
      var piece := match layout[0]
        case Fixed(text) => text
        case DomainSlot => domain
        case StyleSlot => css
        case ScriptSlot => js;
      piece + Fill(layout[1..], domain, css, js)
  }

  /** The page text before the sections. */
  function PageHead(domain: string, css: string, js: string): string
  {
    Fill(HeadLayout, domain, css, js)
  }

  const PageTail: string := "\n</body>\n</html>\n"

  /** The report template with the domain, style sheet, script and joined sections filled in. */
  function Page(domain: string, css: string, js: string, body: string): string
  {
    PageHead(domain, css, js) + body + PageTail
  }

  /**
   The report text, or the first file it could not read: the style sheet,
   then the script, then each template's output in order.
   */
  function ReportContent(rule: Lookup, domain: string, templates: seq<string>, files: Files): (r: Result<string, string>)
    ensures r.Success? <==>
      StylesFile in files && ScriptFile in files && AllPresent(OutputPaths(rule, domain, templates), files)
    ensures r.Failure? ==> r.error !in files
    ensures r.Failure? ==> r.error == StylesFile || r.error == ScriptFile || r.error in OutputPaths(rule, domain, templates)
  {
    if StylesFile !in files then Failure(StylesFile)
    else if ScriptFile !in files then Failure(ScriptFile)
    else
      match Sections(OutputPaths(rule, domain, templates), files, 1)
      case Failure(path) => Failure(path)
      case Success(sections) => Success(Page(domain, files[StylesFile], files[ScriptFile], Join(sections, "\n")))
  }

  /** Paths the report reads agree between two directories: the same files exist with the same contents. */
  predicate AgreeOn(paths: seq<string>, f1: Files, f2: Files)
  {
    forall k | 0 <= k < |paths| ::
      (paths[k] in f1 <==> paths[k] in f2) && (paths[k] in f1 ==> f1[paths[k]] == f2[paths[k]])
  }

  lemma {:induction false} SectionsAgree(paths: seq<string>, f1: Files, f2: Files, n: nat)
    requires AgreeOn(paths, f1, f2)
    ensures Sections(paths, f1, n) == Sections(paths, f2, n)
    decreases |paths|
  {
    if paths != [] {
      assert AgreeOn(paths[1..], f1, f2) by {
        forall k | 0 <= k < |paths[1..]|
          ensures paths[1..][k] == paths[k + 1]
        {
        }
      }
      SectionsAgree(paths[1..], f1, f2, n + 1);
    }
  }

  /** No path the report reads is the report file itself. */
  lemma ReportNameIsNoInput(rule: Lookup, domain: string, other: string, template: string)
    ensures ReportFileName(domain) != StylesFile
    ensures ReportFileName(domain) != ScriptFile
    ensures ReportFileName(domain) != OutputPath(rule, other, template)
  {
    var name := ReportFileName(domain);
    ReportFileNameIsFlat(domain);
    assert name[|name| - 1] == ReportSuffix[|ReportSuffix| - 1] == 'l';
    assert StylesFile[|StylesFile| - 1] == 's';
    assert ScriptFile[|ScriptFile| - 1] == 's';
    var middle := if rule == AsWritten then template else Base(template);
    var slash := |ResultsDir| - 1;
    FirstPiece(ResultsDir, Sanitize(other), "_", middle, OutputSuffix, slash);
    assert ResultsDir[slash] == '/';
    assert OutputPath(rule, other, template) == ResultsDir + Sanitize(other) + "_" + middle + OutputSuffix;
  }

  /** Creating (emptying) the report file changes nothing the report then reads. */
  lemma ReportIgnoresOwnFile(rule: Lookup, domain: string, templates: seq<string>, files: Files, contents: string)
    ensures ReportContent(rule, domain, templates, files[ReportFileName(domain) := contents])
      == ReportContent(rule, domain, templates, files)
  {
    var name := ReportFileName(domain);
    var paths := OutputPaths(rule, domain, templates);
    var created := files[name := contents];
    ReportNameIsNoInput(rule, domain, domain, "");
    assert AgreeOn(paths, created, files) by {
      forall k | 0 <= k < |paths|
        ensures paths[k] != name
      {
        ReportNameIsNoInput(rule, domain, domain, templates[k]);
      }
    }
    SectionsAgree(paths, created, files, 1);
    assert (StylesFile in created <==> StylesFile in files) && (ScriptFile in created <==> ScriptFile in files);
    if StylesFile in files && ScriptFile in files {
      assert created[StylesFile] == files[StylesFile];
      assert created[ScriptFile] == files[ScriptFile];
    }
  }

  /** What one report run leaves behind, and the path it failed to read, if any. */
  datatype ReportRun = ReportRun(files: Files, error: Option<string>)

  /**
   `generateHTMLReport`: the report file is created empty, then filled
   when every input could be read. Nothing but the report file changes. The
   run succeeds exactly when the style sheet, the script and every output
   exist, and then the report holds the page; on failure the report is left
   empty and the error names a missing file.
   */
  function GenerateReport(rule: Lookup, domain: string, templates: seq<string>, files: Files): (run: ReportRun)
    ensures run.files.Keys == files.Keys + {ReportFileName(domain)}
    ensures forall p | p in files && p != ReportFileName(domain) :: run.files[p] == files[p]
    ensures run.error.None? <==>
      StylesFile in files && ScriptFile in files && AllPresent(OutputPaths(rule, domain, templates), files)
    ensures run.error.None? ==>
      && ReportContent(rule, domain, templates, files).Success?
      && run.files[ReportFileName(domain)] == ReportContent(rule, domain, templates, files).value
    ensures run.error.Some? ==> run.files[ReportFileName(domain)] == "" && run.error.value !in files
  {
    var name := ReportFileName(domain);
    var created := files[name := ""];
    var content := ReportContent(rule, domain, templates, created);
    ReportIgnoresOwnFile(rule, domain, templates, files, "");
    assert content == ReportContent(rule, domain, templates, files);
    match content
    case Success(text) => ReportRun(created[name := text], None)
    case Failure(path) => ReportRun(created, Some(path))
  }

  /**
   Running the report again over its own result changes nothing: the
   report reads only files it does not write.
   */
  lemma GenerateReportIdempotent(rule: Lookup, domain: string, templates: seq<string>, files: Files)
    ensures var once := GenerateReport(rule, domain, templates, files);
      GenerateReport(rule, domain, templates, once.files) == once
  {
    var name := ReportFileName(domain);
    var once := GenerateReport(rule, domain, templates, files);
    var created := files[name := ""];
    assert once.files == created || once.files == created[name := once.files[name]];
    OverwriteTwice(created, name, once.files[name], "");
    OverwriteTwice(files, name, "", "");
    assert once.files[name := ""] == created;
  }

  /** Writing a file twice leaves the second contents. */
  lemma OverwriteTwice(files: Files, path: string, first: string, second: string)
    ensures files[path := first][path := second] == files[path := second]
  {
  }

  /** Different template numbers give different section anchors. */
  lemma SectionIdsDistinct(m: nat, n: nat)
    requires m != n
    ensures SectionId(m) != SectionId(n)
  {
    if SectionId(m) == SectionId(n) {
      assert SectionId(m)[8..] == Decimal(m);
      assert SectionId(n)[8..] == Decimal(n);
      DecimalInjective(m, n);
    }
  }

  /**
   A report that succeeds shows every template's output, escaped, in the
   section numbered after the template's place in the list.
   */
  lemma ReportShowsEveryOutput(rule: Lookup, domain: string, templates: seq<string>, files: Files, k: nat)
    requires k < |templates|
    requires ReportContent(rule, domain, templates, files).Success?
    ensures Contains(ReportContent(rule, domain, templates, files).value,
      Section(k + 1, Html.Escape(files[OutputPaths(rule, domain, templates)[k]])))
  {
    var sections := Sections(OutputPaths(rule, domain, templates), files, 1).value;
    var head := PageHead(domain, files[StylesFile], files[ScriptFile]);
    var body := Join(sections, "\n");
    JoinContainsEachPart(sections, "\n", k);
    ContainsAfterPrefix(head, body, sections[k]);
    ContainsBeforeSuffix(head + body, PageTail, sections[k]);
  }

  /** One scan: its template and the output it wrote, or `None` when the scanner failed. */
  datatype ScanRun = ScanRun(template: string, output: Option<string>)

  function TemplatesOf(runs: seq<ScanRun>): seq<string>
  {
    seq(|runs|, k requires 0 <= k < |runs| => runs[k].template)
  }

  /** The paths the successful scans write. */
  function Written(domain: string, runs: seq<ScanRun>): set<string>
  {
    set k | 0 <= k < |runs| && runs[k].output.Some? :: ScanOutputPath(domain, runs[k].template)
  }

  lemma WrittenCons(domain: string, runs: seq<ScanRun>)
    requires runs != []
    ensures Written(domain, runs) == Added(domain, runs[0]) + Written(domain, runs[1..])
  {
    forall p | p in Written(domain, runs)
      ensures p in Written(domain, runs[1..]) || (runs[0].output.Some? && p == ScanOutputPath(domain, runs[0].template))
    {
      var k :| 0 <= k < |runs| && runs[k].output.Some? && p == ScanOutputPath(domain, runs[k].template);
      if k > 0 {
        assert runs[1..][k - 1] == runs[k];
      }
    }
    forall p | p in Written(domain, runs[1..])
      ensures p in Written(domain, runs)
    {
      var k :| 0 <= k < |runs[1..]| && runs[1..][k].output.Some? && p == ScanOutputPath(domain, runs[1..][k].template);
      assert runs[k + 1] == runs[1..][k];
    }
  }

  /**
   `performNucleiScan` for each template of a domain in turn: a successful
   scan writes its output under the template's basename and a failed one
   writes nothing. Exactly the written paths are added, and every other
   file keeps its contents.
   */
  function ScanAll(domain: string, runs: seq<ScanRun>, files: Files): (r: Files)
    ensures r.Keys == files.Keys + Written(domain, runs)
    ensures forall p | p in files && p !in Written(domain, runs) :: r[p] == files[p]
    decreases |runs|
  {
    if runs == [] then files
    else
      var next := WriteScan(domain, runs[0], files);
      var r := ScanAll(domain, runs[1..], next);
      WriteScanAdds(domain, runs[0], files);
      WriteThenRest(files, next, r, Added(domain, runs[0]), Written(domain, runs[1..]));
      WrittenCons(domain, runs);
      r
  }

  /**
   Writing `added` and then `rest` into `files` adds exactly `added + rest`
   and leaves every other file as it was.
   */
  lemma WriteThenRest(files: Files, next: Files, r: Files, added: set<string>, rest: set<string>)
    requires next.Keys == files.Keys + added
    requires forall p | p in files && p !in added :: next[p] == files[p]
    requires r.Keys == next.Keys + rest
    requires forall p | p in next && p !in rest :: r[p] == next[p]
    ensures r.Keys == files.Keys + (added + rest)
    ensures forall p | p in files && p !in added + rest :: r[p] == files[p]
  {
  }

  /** The path a scan writes, if it succeeded. */
  function Added(domain: string, run: ScanRun): set<string>
  {
    if run.output.Some? then {ScanOutputPath(domain, run.template)} else {}
  }

  /** One scan adds exactly the path it writes and leaves every other file as it was. */
  lemma WriteScanAdds(domain: string, run: ScanRun, files: Files)
    ensures WriteScan(domain, run, files).Keys == files.Keys + Added(domain, run)
    ensures forall p | p in files && p !in Added(domain, run) :: WriteScan(domain, run, files)[p] == files[p]
  {
  }

  /** One scan's effect on the directory. */
  function WriteScan(domain: string, run: ScanRun, files: Files): Files
  {
    match run.output
    case Some(o) => files[ScanOutputPath(domain, run.template) := o]
    case None => files
  }

  /** A path no scan after the first writes is not among the later scans' writes. */
  lemma NotWrittenLater(domain: string, runs: seq<ScanRun>, path: string)
    requires runs != []
    requires forall j | 0 < j < |runs| && runs[j].output.Some? :: ScanOutputPath(domain, runs[j].template) != path
    ensures path !in Written(domain, runs[1..])
  {
    forall j | 0 <= j < |runs[1..]| && runs[1..][j].output.Some?
      ensures ScanOutputPath(domain, runs[1..][j].template) != path
    {
      assert runs[1..][j] == runs[j + 1];
    }
  }

  /**
   A file holds the output of the last successful scan that wrote it: when
   no later scan shares the template's basename, the scan's own output.
   */
  lemma {:induction false} ScanAllLastWrite(domain: string, runs: seq<ScanRun>, files: Files, k: nat)
    requires k < |runs| && runs[k].output.Some?
    requires forall j | k < j < |runs| && runs[j].output.Some? ::
      ScanOutputPath(domain, runs[j].template) != ScanOutputPath(domain, runs[k].template)
    ensures ScanOutputPath(domain, runs[k].template) in ScanAll(domain, runs, files)
    ensures ScanAll(domain, runs, files)[ScanOutputPath(domain, runs[k].template)] == runs[k].output.value
    decreases |runs|
  {
    var next := WriteScan(domain, runs[0], files);
    if k == 0 {
      NotWrittenLater(domain, runs, ScanOutputPath(domain, runs[0].template));
    } else {
      var rest := runs[1..];
      assert rest[k - 1] == runs[k];
      assert forall j | k - 1 < j < |rest| :: rest[j] == runs[j + 1];
      ScanAllLastWrite(domain, rest, next, k - 1);
    }
  }

  /**
   When the report looks outputs up by basename, a run in which every scan
   succeeded and the style sheet and script exist yields a report.
   */
  lemma AlignedReportAfterScans(domain: string, runs: seq<ScanRun>, files: Files)
    requires StylesFile in files && ScriptFile in files
    requires forall k | 0 <= k < |runs| :: runs[k].output.Some?
    ensures ReportContent(ByBaseName, domain, TemplatesOf(runs), ScanAll(domain, runs, files)).Success?
    ensures GenerateReport(ByBaseName, domain, TemplatesOf(runs), ScanAll(domain, runs, files)).error.None?
  {
    var paths := OutputPaths(ByBaseName, domain, TemplatesOf(runs));
    var after := ScanAll(domain, runs, files);
    assert AllPresent(paths, after) by {
      forall k | 0 <= k < |paths|
        ensures paths[k] in after
      {
        ScanWritesOwnPath(domain, runs, k);
      }
    }
  }

  /** A successful scan writes the path the basename lookup reads for its template. */
  lemma ScanWritesOwnPath(domain: string, runs: seq<ScanRun>, k: nat)
    requires k < |runs| && runs[k].output.Some?
    ensures OutputPaths(ByBaseName, domain, TemplatesOf(runs))[k] in Written(domain, runs)
  {
    assert OutputPaths(ByBaseName, domain, TemplatesOf(runs))[k] == ScanOutputPath(domain, runs[k].template);
  }

  /**
   With distinct template basenames, the aligned report shows each scan's
   own output under that template's section number.
   */
  lemma AlignedReportShowsEachScan(domain: string, runs: seq<ScanRun>, files: Files, k: nat)
    requires StylesFile in files && ScriptFile in files
    requires forall j | 0 <= j < |runs| :: runs[j].output.Some?
    requires forall i, j | 0 <= i < j < |runs| :: Base(runs[i].template) != Base(runs[j].template)
    requires k < |runs|
    ensures ReportContent(ByBaseName, domain, TemplatesOf(runs), ScanAll(domain, runs, files)).Success?
    ensures Contains(ReportContent(ByBaseName, domain, TemplatesOf(runs), ScanAll(domain, runs, files)).value,
      Section(k + 1, Html.Escape(runs[k].output.value)))
  {
    AlignedReportAfterScans(domain, runs, files);
    ScanKeepsOwnOutput(domain, runs, files, k);
    ReportShowsEveryOutput(ByBaseName, domain, TemplatesOf(runs), ScanAll(domain, runs, files), k);
  }

  /** With distinct basenames, each template's output path holds that scan's output. */
  lemma ScanKeepsOwnOutput(domain: string, runs: seq<ScanRun>, files: Files, k: nat)
    requires k < |runs| && runs[k].output.Some?
    requires forall i, j | 0 <= i < j < |runs| :: Base(runs[i].template) != Base(runs[j].template)
    ensures OutputPath(ByBaseName, domain, TemplatesOf(runs)[k]) in ScanAll(domain, runs, files)
    ensures ScanAll(domain, runs, files)[OutputPath(ByBaseName, domain, TemplatesOf(runs)[k])] == runs[k].output.value
  {
    var path := ScanOutputPath(domain, runs[k].template);
    forall j | k < j < |runs| && runs[j].output.Some?
      ensures ScanOutputPath(domain, runs[j].template) != path
    {
      SameScanOutputIff(domain, runs[j].template, runs[k].template);
    }
    ScanAllLastWrite(domain, runs, files, k);
    assert OutputPath(ByBaseName, domain, TemplatesOf(runs)[k]) == path;
  }

  /**
   As written, a report whose first template has a directory part fails
   after any set of scans: it looks for a file no scan writes.
   */
  lemma NestedTemplateReportFails(domain: string, templates: seq<string>, slash: nat,
                                  runs: seq<ScanRun>, files: Files)
    requires templates != [] && slash < |templates[0]| && templates[0][slash] == '/'
    requires templates[0] != "/"
    requires StylesFile in files && ScriptFile in files
    requires ReportLookupPath(domain, templates[0]) !in files
    ensures GenerateReport(AsWritten, domain, templates, ScanAll(domain, runs, files)).error
      == Some(ReportLookupPath(domain, templates[0]))
  {
    var missing := ReportLookupPath(domain, templates[0]);
    var after := ScanAll(domain, runs, files);
    assert missing !in Written(domain, runs) by {
      if missing in Written(domain, runs) {
        var k :| 0 <= k < |runs| && runs[k].output.Some? && missing == ScanOutputPath(domain, runs[k].template);
        NestedLookupMissesEveryScan(domain, templates[0], slash, runs[k].template);
      }
    }
    assert missing !in after;
    FirstOutputMissing(AsWritten, domain, templates, after);
    GenerateReportFailure(AsWritten, domain, templates, after, missing);
  }

  /** With the style sheet and script present, a missing first output is the error. */
  lemma FirstOutputMissing(rule: Lookup, domain: string, templates: seq<string>, files: Files)
    requires templates != [] && StylesFile in files && ScriptFile in files
    requires OutputPath(rule, domain, templates[0]) !in files
    ensures ReportContent(rule, domain, templates, files) == Failure(OutputPath(rule, domain, templates[0]))
  {
    var paths := OutputPaths(rule, domain, templates);
    assert paths[0] == OutputPath(rule, domain, templates[0]);
    assert Sections(paths, files, 1) == Failure(paths[0]);
  }

  /** A report whose content fails on a file reports that file as its error. */
  lemma GenerateReportFailure(rule: Lookup, domain: string, templates: seq<string>, files: Files, missing: string)
    requires ReportContent(rule, domain, templates, files) == Failure(missing)
    ensures GenerateReport(rule, domain, templates, files).error == Some(missing)
  {
    ReportIgnoresOwnFile(rule, domain, templates, files, "");
  }

  /** Where the first default template's directory part ends. */
  const LfiSlash: nat := |"fuzzing-templates"|

  /** The scan of the first default template writes `Results/<domain>_lfi_output.txt`. */
  lemma DefaultScanOutput(domain: string)
    ensures ScanOutputPath(domain, Cli.DefaultTemplates[0]) == ResultsDir + Sanitize(domain) + "_lfi" + OutputSuffix
  {
    var t := Cli.DefaultTemplates[0];
    assert t[LfiSlash] == '/' && t[LfiSlash + 1..] == "lfi";
    BaseAfterSlash(t, LfiSlash);
  }

  /**
   The default run as written: the first default template is
   `fuzzing-templates/lfi`, so a report over the default templates never
   finds its output and fails on it, even when every scan succeeded.
   */
  lemma DefaultReportMissesScanOutputs(domain: string, runs: seq<ScanRun>, files: Files)
    requires StylesFile in files && ScriptFile in files
    requires ReportLookupPath(domain, Cli.DefaultTemplates[0]) !in files
    ensures GenerateReport(AsWritten, domain, Cli.DefaultTemplates, ScanAll(domain, runs, files)).error
      == Some(ReportLookupPath(domain, Cli.DefaultTemplates[0]))
  {
    assert Cli.DefaultTemplates[0][LfiSlash] == '/';
    NestedTemplateReportFails(domain, Cli.DefaultTemplates, LfiSlash, runs, files);
  }

  /**
   The report task launched for each template alongside that template's
   scan: a report over the template path split into fields.
   */
  function PerTemplateReport(rule: Lookup, domain: string, template: string, files: Files): (run: ReportRun)
    ensures run.files.Keys == files.Keys + {ReportFileName(domain)}
  {
    GenerateReport(rule, domain, Fields(template), files)
  }

  /** For a template path without white space the per-template report covers that template alone. */
  lemma PerTemplateReportOfPlainPath(rule: Lookup, domain: string, template: string, files: Files)
    requires template != []
    requires forall k | 0 <= k < |template| :: !IsSpace(template[k])
    ensures PerTemplateReport(rule, domain, template, files) == GenerateReport(rule, domain, [template], files)
  {
    FieldsOfWord(template);
  }

  /**
   The report task launched for `fuzzing-templates/lfi`: as written it
   fails on `Results/<domain>_fuzzing-templates/lfi_output.txt`, whatever the
   scans wrote, while that scan wrote `Results/<domain>_lfi_output.txt`.
   */
  lemma DefaultTemplateReportFails(domain: string, runs: seq<ScanRun>, files: Files)
    requires StylesFile in files && ScriptFile in files
    requires ReportLookupPath(domain, Cli.DefaultTemplates[0]) !in files
    ensures PerTemplateReport(AsWritten, domain, Cli.DefaultTemplates[0], ScanAll(domain, runs, files)).error
      == Some(ReportLookupPath(domain, Cli.DefaultTemplates[0]))
    ensures ReportLookupPath(domain, Cli.DefaultTemplates[0]) != ScanOutputPath(domain, Cli.DefaultTemplates[0])
  {
    var t := Cli.DefaultTemplates[0];
    DefaultTemplateIsOneField();
    PerTemplateReportOfPlainPath(AsWritten, domain, t, ScanAll(domain, runs, files));
    NestedTemplateReportFails(domain, [t], LfiSlash, runs, files);
    NestedLookupMissesEveryScan(domain, t, LfiSlash, t);
  }

  /** `fuzzing-templates/lfi` holds no white space, and its directory part ends at `LfiSlash`. */
  lemma DefaultTemplateIsOneField()
    ensures Cli.DefaultTemplates[0] != [] && Cli.DefaultTemplates[0][LfiSlash] == '/'
    ensures forall k | 0 <= k < |Cli.DefaultTemplates[0]| :: !IsSpace(Cli.DefaultTemplates[0][k])
  {
  }
}
